/**
 * The qualification matrix editor (annex B, AnexoBTable.tsx): adding a row,
 * removing rows by identifier and editing one cell. The three role columns
 * hold "1" (course desirable) or "0" (not desirable).
 */
module QualificationTable {
  import opened JsRuntime
  import opened NpaTypes

  datatype MatrixField = Qualificacao | Sigla | Legislacao | Prioridade | SetorCh | SetorEnc | SetorAux

  predicate IsRoleField(field: MatrixField)
  {
    field == SetorCh || field == SetorEnc || field == SetorAux
  }

  predicate IsFlag(v: string)
  {
    v == "0" || v == "1"
  }

  /** Every role cell of every row holds "0" or "1". */
  predicate FlagsValid(rows: seq<AnexoBItem>)
  {
    forall i :: 0 <= i < |rows| ==> IsFlag(rows[i].setorCh) && IsFlag(rows[i].setorEnc) && IsFlag(rows[i].setorAux)
  }

  function FieldOf(row: AnexoBItem, field: MatrixField): string
  {
    match field
    case Qualificacao => row.qualificacao
    case Sigla => row.sigla
    case Legislacao => row.legislacao
    case Prioridade => row.prioridade
    case SetorCh => row.setorCh
    case SetorEnc => row.setorEnc
    case SetorAux => row.setorAux
  }

  /** The row addRow appends: empty texts, every role "0". */
  function NewRow(id: int): AnexoBItem
  {
    AnexoBItem(id, "", "", "", "", "0", "0", "0")
  }

  /** addRow: appends one row with empty texts and every role flag "0"; the others are kept. */
  function AddRow(data: seq<AnexoBItem>, id: int): (r: seq<AnexoBItem>)
    ensures |r| == |data| + 1 && r[..|data|] == data
    ensures r[|data|].id == id && forall f :: FieldOf(r[|data|], f) == (if IsRoleField(f) then "0" else "")
  {
    data + [NewRow(id)]
  }

  /** removeRow: keeps, in order, exactly the rows whose identifier differs from `id`. */
  function RemoveRow(data: seq<AnexoBItem>, id: int): (r: seq<AnexoBItem>)
    ensures forall i :: 0 <= i < |r| ==> r[i].id != id
    ensures forall row :: row in r <==> row in data && row.id != id
  {
    WithoutIdMembers(data, AnexoBId, id);
    WithoutId(data, AnexoBId, id)
  }

  /** Removing distributes over the list: rows keep their relative order. */
  lemma RemoveRowKeepsOrder(a: seq<AnexoBItem>, b: seq<AnexoBItem>, id: int)
    ensures RemoveRow(a + b, id) == RemoveRow(a, id) + RemoveRow(b, id)
  {
    WithoutIdAppend(a, b, AnexoBId, id);
  }

  /** One row after an edit: `field` takes `value`, every other field and the identifier are kept. */
  function EditedRow(row: AnexoBItem, field: MatrixField, value: string): (r: AnexoBItem)
    ensures r.id == row.id
    ensures forall f :: FieldOf(r, f) == (if f == field then value else FieldOf(row, f))
  {
    match field
    case Qualificacao => row.(qualificacao := value)
    case Sigla => row.(sigla := value)
    case Legislacao => row.(legislacao := value)
    case Prioridade => row.(prioridade := value)
    case SetorCh => row.(setorCh := value)
    case SetorEnc => row.(setorEnc := value)
    case SetorAux => row.(setorAux := value)
  }

  /**
   * handleCellChange: copies the rows and replaces row `rowIndex` by its
   * edited version. A role cell is a two-option select, so its value is "0"
   * or "1", and the flag invariant is kept.
   */
  method HandleCellChange(data: seq<AnexoBItem>, rowIndex: nat, field: MatrixField, value: string)
    returns (newData: seq<AnexoBItem>)
    requires rowIndex < |data|
    requires IsRoleField(field) ==> IsFlag(value)
    ensures newData == data[rowIndex := EditedRow(data[rowIndex], field, value)]
    ensures FlagsValid(data) ==> FlagsValid(newData)
  {
    newData := data;
    newData := newData[rowIndex := EditedRow(newData[rowIndex], field, value)];
    if FlagsValid(data) {
      forall i | 0 <= i < |newData|
        ensures IsFlag(newData[i].setorCh) && IsFlag(newData[i].setorEnc) && IsFlag(newData[i].setorAux)
      {
        if i == rowIndex {
          assert FieldOf(newData[i], SetorCh) == newData[i].setorCh;
          assert FieldOf(newData[i], SetorEnc) == newData[i].setorEnc;
          assert FieldOf(newData[i], SetorAux) == newData[i].setorAux;
        }
      }
    }
  }

  /** Adding and removing rows keep every role flag "0" or "1". */
  lemma AddRemoveKeepFlags(data: seq<AnexoBItem>, id: int)
    requires FlagsValid(data)
    ensures FlagsValid(AddRow(data, id))
    ensures FlagsValid(RemoveRow(data, id))
  {
    var added := AddRow(data, id);
    forall i | 0 <= i < |added|
      ensures IsFlag(added[i].setorCh) && IsFlag(added[i].setorEnc) && IsFlag(added[i].setorAux)
    {
      if i < |data| {
        assert added[i] == added[..|data|][i];
      } else {
        assert FieldOf(added[i], SetorCh) == added[i].setorCh;
        assert FieldOf(added[i], SetorEnc) == added[i].setorEnc;
        assert FieldOf(added[i], SetorAux) == added[i].setorAux;
      }
    }
    var removed := RemoveRow(data, id);
    forall i | 0 <= i < |removed|
      ensures IsFlag(removed[i].setorCh) && IsFlag(removed[i].setorEnc) && IsFlag(removed[i].setorAux)
    {
      assert removed[i] in data;
    }
  }

  /** Removing a freshly added row undoes the addition. */
  lemma RemoveAddedRow(data: seq<AnexoBItem>, id: int)
    requires forall i :: 0 <= i < |data| ==> data[i].id != id
    ensures RemoveRow(AddRow(data, id), id) == data
  {
    WithoutFreshLast(data, NewRow(id), AnexoBId, id);
  }

  /** Removing an identifier no row carries changes nothing. */
  lemma RemoveAbsentRow(data: seq<AnexoBItem>, id: int)
    requires forall i :: 0 <= i < |data| ==> data[i].id != id
    ensures RemoveRow(data, id) == data
  {
    WithoutAbsentId(data, AnexoBId, id);
  }
}
