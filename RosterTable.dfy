/**
 * The personnel roster editor (annex A, AnexoATable.tsx): a cell edit and
 * the footer total.
 *
 * The headcount input is coerced with parseInt, NaN becoming 0. The two
 * prediction inputs write their raw text over the prediction record, so the
 * edited cell holds a string (`Typed`) from then on.
 */
module RosterTable {
  import opened JsRuntime
  import opened NpaTypes
  import ExportService

  datatype RosterField = Funcao | PrevisaoPrincipal | PrevisaoAlternativa | EfetivoProposto

  /** The headcount stored for the text of the input: `parseInt(value, 10)`, or 0 when that is NaN. */
  function StoredEfetivo(value: string): (r: JsNumber)
    ensures r.Num?
    ensures ParseInt(value).Num? ==> r == ParseInt(value)
    ensures ParseInt(value).NaN? ==> r == Num(0)
  {
    var numValue := ParseInt(value);
    if numValue.NaN? then Num(0) else numValue
  }

  /** A run of decimal digits ("7", "007"), whatever follows it, is stored as its value. */
  lemma StoredEfetivoOfDecimal(d: string, rest: string)
    requires |d| > 0 && AllDigits(d)
    requires |rest| > 0 ==> !IsDigit(rest[0])
    ensures StoredEfetivo(d + rest) == Num(DigitsValue(d))
  {
    ParseIntOfDigits(d, rest);
  }

  /** A value that starts with its decimal point (".5", "-.5") is stored as 0. */
  lemma StoredEfetivoOfFraction(d: string)
    ensures StoredEfetivo("." + d) == Num(0)
    ensures StoredEfetivo("-." + d) == Num(0)
  {
    ParseIntOfFraction(d);
  }

  /** Negative headcounts are stored as typed: nothing clamps them. */
  lemma StoredEfetivoOfNegative(n: nat)
    ensures StoredEfetivo("-" + NatToString(n)) == Num(-(n as int))
  {
    ParseIntOfNegative(n, "");
    assert "-" + NatToString(n) + "" == "-" + NatToString(n);
  }

  /** Text with no digit at all (the cleared input among it) is stored as 0. */
  lemma StoredEfetivoWithoutDigits(value: string)
    requires forall i :: 0 <= i < |value| ==> !IsDigit(value[i])
    ensures StoredEfetivo(value) == Num(0)
  {
  }

  /** Re-entering the number the input shows stores that same number. */
  lemma StoredEfetivoOfShown(v: int)
    ensures StoredEfetivo(NumberToString(Num(v))) == Num(v)
  {
    ParseIntOfNumberToString(v);
  }

  /** One row after an edit of `field`: that field takes the (coerced) value, the rest is kept. */
  function EditedRow(row: AnexoAItem, field: RosterField, value: string): (r: AnexoAItem)
    ensures r.id == row.id
    ensures r.funcao == (if field == Funcao then value else row.funcao)
    ensures r.previsaoPrincipal == (if field == PrevisaoPrincipal then Typed(value) else row.previsaoPrincipal)
    ensures r.previsaoAlternativa == (if field == PrevisaoAlternativa then Typed(value) else row.previsaoAlternativa)
    ensures r.efetivoProposto == (if field == EfetivoProposto then StoredEfetivo(value) else row.efetivoProposto)
  {
    match field
    case Funcao => row.(funcao := value)
    case PrevisaoPrincipal => row.(previsaoPrincipal := Typed(value))
    case PrevisaoAlternativa => row.(previsaoAlternativa := Typed(value))
    case EfetivoProposto => row.(efetivoProposto := StoredEfetivo(value))
  }

  /**
   * handleCellChange: copies the rows and replaces row `rowIndex` by its
   * edited version. The other rows and the length are kept, the footer total
   * moves by exactly the change of that row's count, and a roster without
   * NaN counts stays without them.
   */
  method HandleCellChange(data: seq<AnexoAItem>, rowIndex: nat, field: RosterField, value: string)
    returns (newData: seq<AnexoAItem>)
    requires rowIndex < |data|
    ensures newData == data[rowIndex := EditedRow(data[rowIndex], field, value)]
    ensures ExportService.TotalEfetivo(newData) == ExportService.TotalEfetivo(data)
      - OrZero(data[rowIndex].efetivoProposto) + OrZero(newData[rowIndex].efetivoProposto)
    ensures (forall i :: 0 <= i < |data| ==> data[i].efetivoProposto.Num?) ==>
      forall i :: 0 <= i < |newData| ==> newData[i].efetivoProposto.Num?
  {
    newData := data;
    if field == EfetivoProposto {
      var numValue := ParseInt(value);
      newData := newData[rowIndex := newData[rowIndex].(efetivoProposto := if numValue.NaN? then Num(0) else numValue)];
    } else {
      var row := newData[rowIndex];
      row := match field
        case Funcao => row.(funcao := value)
        case PrevisaoPrincipal => row.(previsaoPrincipal := Typed(value))
        case PrevisaoAlternativa => row.(previsaoAlternativa := Typed(value))
        case EfetivoProposto => row;
      newData := newData[rowIndex := row];
    }
    ExportService.TotalEfetivoReplace(data, rowIndex, newData[rowIndex]);
  }

  /**
   * The footer total (useMemo over the rows) is the exporter's total, so the
   * editor and the exported table agree; after an edit of row i to a typed
   * decimal n it has moved by n minus the row's old count.
   */
  lemma FooterTotalAfterDecimalEdit(data: seq<AnexoAItem>, i: nat, n: nat)
    requires i < |data|
    ensures var edited := data[i := EditedRow(data[i], EfetivoProposto, NatToString(n))];
      ExportService.TotalEfetivo(edited) == ExportService.TotalEfetivo(data) - OrZero(data[i].efetivoProposto) + n
  {
    ParseIntOfDecimal(n, "");
    assert NatToString(n) + "" == NatToString(n);
    ExportService.TotalEfetivoReplace(data, i, EditedRow(data[i], EfetivoProposto, NatToString(n)));
  }
}
