/**
 * The deterministic part of the document exporter (services/exportService.ts):
 * the date and content formatting, the table of contents with its page
 * estimates, the headcount total, the dispatch of each subsection to the
 * signature blocks, its content or its items, the cover's annex list and the
 * rows of the exported personnel roster.
 *
 * The exporter builds one long HTML string. Here its pieces are abstract
 * entries (a row with its text, page and style; a block with its kind and
 * text) instead of styled markup.
 */
module ExportService {
  import opened JsRuntime
  import opened NpaTypes
  import Outline
  import Annexes

  datatype Option<T> = None | Some(value: T)

  // ---------------------------------------------------------------------
  // formatDate

  const MONTHS: seq<string> := ["JAN", "FEV", "MAR", "ABR", "MAI", "JUN", "JUL", "AGO", "SET", "OUT", "NOV", "DEZ"]

  predicate IsLeapYear(y: nat)
  {
    y % 4 == 0 && (y % 100 != 0 || y % 400 == 0)
  }

  function DaysInMonth(y: nat, m: nat): nat
  {
    if m == 2 then (if IsLeapYear(y) then 29 else 28)
    else if m == 4 || m == 6 || m == 9 || m == 11 then 30
    else 31
  }

  /** "YYYY-MM-DD", a four-digit year, naming a day of the (proleptic Gregorian) calendar. */
  predicate WellFormedIsoDate(s: string)
  {
    && |s| == 10 && s[4] == '-' && s[7] == '-'
    && AllDigits(s[..4]) && AllDigits(s[5..7]) && AllDigits(s[8..10])
    && 1 <= DigitsValue(s[5..7]) <= 12
    && 1 <= DigitsValue(s[8..10]) <= DaysInMonth(DigitsValue(s[..4]), DigitsValue(s[5..7]))
  }

  function YearOf(s: string): nat
    requires WellFormedIsoDate(s)
  {
    DigitsValue(s[..4])
  }

  function MonthOf(s: string): nat
    requires WellFormedIsoDate(s)
  {
    DigitsValue(s[5..7])
  }

  function DayOf(s: string): nat
    requires WellFormedIsoDate(s)
  {
    DigitsValue(s[8..10])
  }

  /** `s.padStart(n, c)` */
  function PadStart(s: string, n: nat, c: char): string
    decreases n - |s|
  {
    if |s| >= n then s else PadStart([c] + s, n, c)
  }

  /** Padding the value of two digits back to two places gives the same two digits. */
  lemma PadDayRoundTrip(d: string)
    requires AllDigits(d) && |d| == 2
    ensures PadStart(NatToString(DigitsValue(d)), 2, '0') == d
  {
    var v := DigitsValue(d);
    TwoDigitsBelow100(d);
    DigitsValueOfNatToString(v);
    var t := NatToString(v);
    if v < 10 {
      var p := "0" + t;
      assert PadStart(t, 2, '0') == p;
      TwoDigitsBelow100(p);
      DigitsValueInjective(p, d);
    } else {
      assert |NatToString(v / 10)| == 1;
      DigitsValueInjective(t, d);
    }
  }

  /**
   * formatDate: "" stays ""; a date "YYYY-MM-DD" becomes its two day digits,
   * the Portuguese month abbreviation and the year as a number ("DD MMM Y").
   */
  function FormatDate(s: string): (r: string)
    requires s == "" || WellFormedIsoDate(s)
    ensures s == "" ==> r == ""
    ensures s != "" ==> r == s[8..10] + " " + MONTHS[DigitsValue(s[5..7]) - 1] + " " + NatToString(DigitsValue(s[..4]))
  {
    if s == "" then ""
    else
      var day := PadStart(NatToString(DayOf(s)), 2, '0');
      var month := MONTHS[MonthOf(s) - 1];
      var year := YearOf(s);
      PadDayRoundTrip(s[8..10]);
      day + " " + month + " " + NatToString(year)
  }

  lemma MonthsDistinct(i: nat, j: nat)
    requires i < 12 && j < 12 && MONTHS[i] == MONTHS[j]
    ensures i == j
  {
  }

  /** The pieces of a printed date: the day digits, the month name and the year, at fixed places. */
  lemma FormatDatePieces(s: string)
    requires WellFormedIsoDate(s)
    ensures var r := FormatDate(s);
      && |r| >= 8 && r[..2] == s[8..10] && r[3..6] == MONTHS[MonthOf(s) - 1] && r[7..] == NatToString(YearOf(s))
  {
    var month := MONTHS[MonthOf(s) - 1];
    assert |month| == 3;
    var r := FormatDate(s);
    assert r == s[8..10] + " " + month + " " + NatToString(YearOf(s));
  }

  /** Distinct dates are printed differently: formatDate loses no information. */
  lemma FormatDateInjective(a: string, b: string)
    requires a == "" || WellFormedIsoDate(a)
    requires b == "" || WellFormedIsoDate(b)
    ensures FormatDate(a) == FormatDate(b) <==> a == b
  {
    if FormatDate(a) == FormatDate(b) && a != "" && b != "" {
      FormatDatePieces(a);
      FormatDatePieces(b);
      MonthsDistinct(MonthOf(a) - 1, MonthOf(b) - 1);
      DigitsValueInjective(a[5..7], b[5..7]);
      NatToStringInjective(YearOf(a), YearOf(b));
      DigitsValueInjective(a[..4], b[..4]);
      SameDateParts(a, b);
    } else if a == "" && b != "" {
      FormatDatePieces(b);
    } else if a != "" && b == "" {
      FormatDatePieces(a);
    }
  }

  lemma SameDateParts(a: string, b: string)
    requires |a| == 10 && |b| == 10 && a[4] == b[4] && a[7] == b[7]
    requires a[..4] == b[..4] && a[5..7] == b[5..7] && a[8..10] == b[8..10]
    ensures a == b
  {
    forall i | 0 <= i < 10 ensures a[i] == b[i] {
      if i < 4 {
        assert a[i] == a[..4][i];
        assert b[i] == b[..4][i];
      } else if 5 <= i < 7 {
        assert a[i] == a[5..7][i - 5];
        assert b[i] == b[5..7][i - 5];
      } else if 8 <= i {
        assert a[i] == a[8..10][i - 8];
        assert b[i] == b[8..10][i - 8];
      }
    }
  }

  // ---------------------------------------------------------------------
  // formatContent

  /** `text.replace(/\n/g, '<br/>')` */
  function ReplaceNewlines(s: string): (r: string)
    ensures '\n' !in r
    ensures '\n' in s ==> '<' in r
    ensures '<' in r ==> '<' in s || '\n' in s
  {
    if |s| == 0 then ""
    else (if s[0] == '\n' then "<br/>" else [s[0]]) + ReplaceNewlines(s[1..])
  }

  /** Turns every "<br/>" back into a newline: the inverse of ReplaceNewlines on text without '<'. */
  function RestoreNewlines(s: string): string
  {
    if |s| >= 5 && s[..5] == "<br/>" then "\n" + RestoreNewlines(s[5..])
    else if |s| == 0 then ""
    else [s[0]] + RestoreNewlines(s[1..])
  }

  lemma {:induction false} RestoreReplaceNewlines(s: string)
    requires '<' !in s
    ensures RestoreNewlines(ReplaceNewlines(s)) == s
    decreases |s|
  {
    if |s| > 0 {
      var rest := ReplaceNewlines(s[1..]);
      assert '<' !in s[1..] by {
        forall c | c in s[1..] ensures c != '<' {
          assert c in s;
        }
      }
      RestoreReplaceNewlines(s[1..]);
      if s[0] == '\n' {
        var r := "<br/>" + rest;
        assert ReplaceNewlines(s) == r;
        assert r[..5] == "<br/>" && r[5..] == rest;
        assert RestoreNewlines(r) == "\n" + RestoreNewlines(rest);
      } else {
        var r := [s[0]] + rest;
        assert ReplaceNewlines(s) == r;
        assert r[0] != '<';
        assert |r| >= 5 ==> r[..5][0] == r[0] != '<';
        assert r[1..] == rest;
        assert RestoreNewlines(r) == [s[0]] + RestoreNewlines(rest);
      }
      assert s == [s[0]] + s[1..];
    }
  }

  /**
   * formatContent: the empty string stays empty; plain text (no '<') with a
   * newline gets every newline replaced by "<br/>"; anything else, such as
   * the editors' HTML, is returned as it is.
   */
  function FormatContent(text: string): (r: string)
    ensures '<' !in text && '\n' in text ==> r == ReplaceNewlines(text)
    ensures !('<' !in text && '\n' in text) ==> r == text
    ensures text == "" ==> r == ""
    ensures '\n' !in r || r == text
  {
    IncludesChar(text, '<');
    IncludesChar(text, '\n');
    if text == "" then ""
    else if !Includes(text, "<") && Includes(text, "\n") then ReplaceNewlines(text)
    else text
  }

  /** Formatting formatted content changes nothing more. */
  lemma FormatContentIdempotent(text: string)
    ensures FormatContent(FormatContent(text)) == FormatContent(text)
  {
  }

  /** On plain text the conversion loses nothing: the newlines can be read back. */
  lemma FormatContentRoundTrip(text: string)
    requires '<' !in text
    ensures RestoreNewlines(FormatContent(text)) == text
  {
    if '\n' in text {
      RestoreReplaceNewlines(text);
    } else {
      RestoreNoMarkup(text);
    }
  }

  lemma {:induction false} RestoreNoMarkup(s: string)
    requires '<' !in s
    ensures RestoreNewlines(s) == s
    decreases |s|
  {
    if |s| > 0 {
      assert s[0] != '<';
      assert '<' !in s[1..] by {
        forall c | c in s[1..] ensures c != '<' {
          assert c in s;
        }
      }
      RestoreNoMarkup(s[1..]);
      assert s == [s[0]] + s[1..];
    }
  }

  // ---------------------------------------------------------------------
  // generateSummary: the table of contents

  /** One row of the table of contents: its text, its page number and its style. */
  datatype SummaryRow = SummaryRow(text: string, pageNum: string, bold: bool, uppercase: bool, underline: bool)

  /** createSummaryRow: level 0 is bold; level 1 is uppercase and underlined. */
  function CreateSummaryRow(text: string, pageNum: string, level: int): (r: SummaryRow)
    ensures r.text == text && r.pageNum == pageNum
    ensures r.bold <==> level == 0
    ensures r.uppercase <==> level == 1
    ensures r.underline <==> level == 1
  {
    var isSubsection := level == 1;
    var fontWeightBold := level == 0;
    SummaryRow(text, pageNum, fontWeightBold, isSubsection, isSubsection)
  }

  /** `${numero} ${titulo}` */
  function Label(numero: string, titulo: string): string
  {
    numero + " " + titulo
  }

  const FIRST_BODY_PAGE: nat := 2

  /** The rows of the subsections of a section, all on the section's page. */
  function SubsectionRows(subs: seq<SubSection>, page: nat): seq<SummaryRow>
  {
    seq(|subs|, j requires 0 <= j < |subs| => CreateSummaryRow(Label(subs[j].numero, subs[j].titulo), NatToString(page), 1))
  }

  /** A section's row followed by its subsections' rows. */
  function SectionRows(section: Section, page: nat): seq<SummaryRow>
  {
    [CreateSummaryRow(Label(section.numero, section.titulo), NatToString(page), 0)] + SubsectionRows(section.subsections, page)
  }

  /** How many subsections the outline has. */
  function SubsectionCount(body: seq<Section>): nat
  {
    if |body| == 0 then 0 else SubsectionCount(body[..|body| - 1]) + |body[|body| - 1].subsections|
  }

  /** The rows of the sections of `body`, section k on page `first + k`: one per section and one per subsection. */
  function BodyRows(body: seq<Section>, first: nat): (r: seq<SummaryRow>)
    ensures |r| == |body| + SubsectionCount(body)
  {
    if |body| == 0 then []
    else BodyRows(body[..|body| - 1], first) + SectionRows(body[|body| - 1], first + |body| - 1)
  }

  function ReferencesRow(body: seq<Section>): SummaryRow
  {
    CreateSummaryRow("REFERÊNCIAS", NatToString(FIRST_BODY_PAGE + |body|), 0)
  }

  /**
   * The table of contents: the body's rows, then the references. It has one
   * row per section, one per subsection and one for the references, which
   * comes last, bold, on page 2 + the number of sections.
   */
  function Summary(body: seq<Section>): (r: seq<SummaryRow>)
    ensures |r| == |body| + SubsectionCount(body) + 1
    ensures r[|r| - 1] == CreateSummaryRow("REFERÊNCIAS", NatToString(2 + |body|), 0)
  {
    BodyRows(body, FIRST_BODY_PAGE) + [ReferencesRow(body)]
  }

  /**
   * generateSummary: walks the sections and their subsections, one row each,
   * advancing the page counter once per section, and closes with REFERÊNCIAS.
   */
  method GenerateSummary(body: seq<Section>) returns (rows: seq<SummaryRow>)
    ensures rows == Summary(body)
  {
    rows := [];
    var pageCounter := FIRST_BODY_PAGE;
    var i := 0;
    while i < |body|
      invariant 0 <= i <= |body|
      invariant pageCounter == FIRST_BODY_PAGE + i
      invariant rows == BodyRows(body[..i], FIRST_BODY_PAGE)
    {
      var section := body[i];
      ghost var before := rows;
      rows := rows + [CreateSummaryRow(Label(section.numero, section.titulo), NatToString(pageCounter), 0)];
      var j := 0;
      while j < |section.subsections|
        invariant 0 <= j <= |section.subsections|
        invariant rows == before + [CreateSummaryRow(Label(section.numero, section.titulo), NatToString(pageCounter), 0)]
          + SubsectionRows(section.subsections[..j], pageCounter)
      {
        var subsection := section.subsections[j];
        rows := rows + [CreateSummaryRow(Label(subsection.numero, subsection.titulo), NatToString(pageCounter), 1)];
        j := j + 1;
      }
      assert section.subsections[..j] == section.subsections;
      assert body[..i + 1][..i] == body[..i];
      pageCounter := pageCounter + 1;
      i := i + 1;
    }
    assert body[..i] == body;
    rows := rows + [CreateSummaryRow("REFERÊNCIAS", NatToString(pageCounter), 0)];
  }

  /** Where section k's row sits in the table of contents. */
  function RowIndex(body: seq<Section>, k: nat): nat
    requires k <= |body|
  {
    k + SubsectionCount(body[..k])
  }

  /** The rows of the first m sections are a prefix of the rows of all of them. */
  lemma {:induction false} BodyRowsPrefix(body: seq<Section>, first: nat, m: nat)
    requires m <= |body|
    ensures BodyRows(body[..m], first) <= BodyRows(body, first)
    decreases |body| - m
  {
    if m < |body| {
      var init := body[..|body| - 1];
      BodyRowsPrefix(init, first, m);
      assert init[..m] == body[..m];
    } else {
      assert body[..m] == body;
    }
  }

  /** Section k's rows are the contiguous block starting at RowIndex(body, k), on page `first + k`. */
  lemma BodyRowsAt(body: seq<Section>, first: nat, k: nat)
    requires k < |body|
    ensures RowIndex(body, k) + 1 + |body[k].subsections| <= |BodyRows(body, first)|
    ensures BodyRows(body, first)[RowIndex(body, k)..RowIndex(body, k) + 1 + |body[k].subsections|]
      == SectionRows(body[k], first + k)
  {
    var pre := BodyRows(body[..k], first);
    var block := SectionRows(body[k], first + k);
    BodyRowsStep(body, first, k);
    BodyRowsPrefix(body, first, k + 1);
    BlockOfPrefix(BodyRows(body, first), pre, block);
  }

  lemma BodyRowsStep(body: seq<Section>, first: nat, k: nat)
    requires k < |body|
    ensures BodyRows(body[..k + 1], first) == BodyRows(body[..k], first) + SectionRows(body[k], first + k)
  {
    var upto := body[..k + 1];
    assert upto[..k] == body[..k] && upto[k] == body[k];
  }

  lemma BlockOfPrefix<T>(all: seq<T>, pre: seq<T>, block: seq<T>)
    requires pre + block <= all
    ensures |pre| + |block| <= |all| && all[|pre|..|pre| + |block|] == block
  {
    assert all[..|pre + block|] == pre + block;
    assert all[|pre|..|pre| + |block|] == (pre + block)[|pre|..];
  }

  /**
   * In document order, section k's row (bold, "numero titulo") is followed by
   * its subsections' rows (uppercase, underlined), all on page 2 + k.
   */
  lemma SummarySectionRows(body: seq<Section>, k: nat)
    requires k < |body|
    ensures RowIndex(body, k) + 1 + |body[k].subsections| < |Summary(body)|
    ensures Summary(body)[RowIndex(body, k)..RowIndex(body, k) + 1 + |body[k].subsections|]
      == SectionRows(body[k], 2 + k)
    ensures var row := Summary(body)[RowIndex(body, k)];
      row.text == Label(body[k].numero, body[k].titulo) && row.pageNum == NatToString(2 + k) && row.bold
  {
    BodyRowsAt(body, FIRST_BODY_PAGE, k);
    var lo, hi := RowIndex(body, k), RowIndex(body, k) + 1 + |body[k].subsections|;
    var front := BodyRows(body, FIRST_BODY_PAGE);
    assert Summary(body)[lo..hi] == front[lo..hi];
    assert Summary(body)[lo] == front[lo..hi][0];
  }

  /** A section's block: its own bold row, then one uppercase, underlined row per subsection, same page. */
  lemma SectionRowsShape(section: Section, page: nat)
    ensures var r := SectionRows(section, page);
      && |r| == 1 + |section.subsections|
      && r[0] == SummaryRow(Label(section.numero, section.titulo), NatToString(page), true, false, false)
      && forall j :: 0 <= j < |section.subsections| ==>
           r[1..][j] == SummaryRow(Label(section.subsections[j].numero, section.subsections[j].titulo), NatToString(page), false, true, true)
  {
  }

  // ---------------------------------------------------------------------
  // totalEfetivoA, and the roster table's footer

  /**
   * `rows.reduce((sum, row) => sum + (row.efetivoProposto || 0), 0)`: NaN
   * and 0 add nothing, so with no negative count the total is not negative.
   */
  function TotalEfetivo(rows: seq<AnexoAItem>): (r: int)
    ensures (forall i :: 0 <= i < |rows| ==> OrZero(rows[i].efetivoProposto) >= 0) ==> r >= 0
    ensures (forall i :: 0 <= i < |rows| ==> OrZero(rows[i].efetivoProposto) == 0) ==> r == 0
  {
    if |rows| == 0 then 0 else TotalEfetivo(rows[..|rows| - 1]) + OrZero(rows[|rows| - 1].efetivoProposto)
  }

  lemma {:induction false} TotalEfetivoAppend(a: seq<AnexoAItem>, b: seq<AnexoAItem>)
    ensures TotalEfetivo(a + b) == TotalEfetivo(a) + TotalEfetivo(b)
    decreases |b|
  {
    if |b| > 0 {
      assert (a + b)[..|a + b| - 1] == a + b[..|b| - 1];
      TotalEfetivoAppend(a, b[..|b| - 1]);
    } else {
      assert a + b == a;
    }
  }

  /** Replacing one row changes the total by the difference of the two rows' counts. */
  lemma TotalEfetivoReplace(rows: seq<AnexoAItem>, i: nat, row: AnexoAItem)
    requires i < |rows|
    ensures TotalEfetivo(rows[i := row]) ==
      TotalEfetivo(rows) - OrZero(rows[i].efetivoProposto) + OrZero(row.efetivoProposto)
  {
    var pre, post := rows[..i], rows[i + 1..];
    assert rows == pre + [rows[i]] + post;
    assert rows[i := row] == pre + [row] + post;
    TotalEfetivoAppend(pre + [rows[i]], post);
    TotalEfetivoAppend(pre + [row], post);
    TotalEfetivoAppend(pre, [rows[i]]);
    TotalEfetivoAppend(pre, [row]);
  }

  /** With no negative count the total is at least every single row's count. */
  lemma {:induction false} TotalEfetivoBounds(rows: seq<AnexoAItem>)
    requires forall i :: 0 <= i < |rows| ==> OrZero(rows[i].efetivoProposto) >= 0
    ensures TotalEfetivo(rows) >= 0
    ensures forall i :: 0 <= i < |rows| ==> OrZero(rows[i].efetivoProposto) <= TotalEfetivo(rows)
    decreases |rows|
  {
    if |rows| > 0 {
      var init := rows[..|rows| - 1];
      TotalEfetivoBounds(init);
      forall i | 0 <= i < |rows| ensures OrZero(rows[i].efetivoProposto) <= TotalEfetivo(rows) {
        if i < |rows| - 1 {
          assert rows[i] == init[i];
        }
      }
    }
  }

  /** The seed roster of three rows, one person each, totals 3. */
  lemma InitialRosterTotal(dataExpedicao: string)
    ensures TotalEfetivo(Outline.InitialNpaData(dataExpedicao).anexoA) == 3
  {
    var rows := Outline.InitialNpaData(dataExpedicao).anexoA;
    assert rows[..1][..0] == [];
    assert TotalEfetivo(rows[..1]) == 1;
    assert rows[..2][..1] == rows[..1];
    assert TotalEfetivo(rows[..2]) == 2;
    assert rows[..3] == rows;
  }

  // ---------------------------------------------------------------------
  // The body: each subsection becomes a heading, signature blocks, content or items

  datatype ItemHeading = TitledItem(text: string) | NumberOnly(numero: string)

  datatype BodyBlock =
    | SectionHeading(text: string)
    | SubsectionHeading(text: string)
    | SignatureBlock(caption: string, nome: string, cargo: string)
    | ContentBlock(numberPrefix: Option<string>, html: string)
    | ItemBlock(heading: ItemHeading, html: string)

  /** `subsection.titulo && subsection.titulo.trim() !== ""` */
  predicate HasTitle(sub: SubSection)
  {
    sub.titulo != "" && Trim(sub.titulo) != ""
  }

  /** A subsection's title is printed exactly when it is not blank. */
  lemma HasTitleIffNotBlank(sub: SubSection)
    ensures HasTitle(sub) <==> !IsBlank(sub.titulo)
  {
  }

  /** The three signature blocks, names uppercased (`upper` stands for toUpperCase). */
  function SignatureBlocks(a: Assinaturas, upper: string -> string): seq<BodyBlock>
  {
    [ SignatureBlock("Proposto por:", upper(a.propostoPor.nome), a.propostoPor.cargo),
      SignatureBlock("Visto por:", upper(a.vistoPor.nome), a.vistoPor.cargo),
      SignatureBlock("Aprovado por:", upper(a.aprovadoPor.nome), a.aprovadoPor.cargo)]
  }

  /** The content block, when there is content; numbered in bold when the title is not printed. */
  function ContentBlocks(sub: SubSection): seq<BodyBlock>
  {
    if sub.conteudo != "" then
      [ContentBlock(if !HasTitle(sub) then Some(sub.numero) else None, FormatContent(sub.conteudo))]
    else []
  }

  /**
   * One block per item, in order: a bold "numero titulo" line when the item
   * has a title, its bare bold number otherwise, then its formatted content.
   */
  function ItemBlocks(items: seq<SubSubSection>): seq<BodyBlock>
  {
    seq(|items|, i requires 0 <= i < |items| =>
      ItemBlock(
        if items[i].titulo != "" then TitledItem(Label(items[i].numero, items[i].titulo)) else NumberOnly(items[i].numero),
        FormatContent(items[i].conteudo)))
  }

  /**
   * A subsection's blocks: the heading first when the title is not blank,
   * and no heading anywhere else.
   */
  function RenderSubsection(sub: SubSection, a: Assinaturas, upper: string -> string): (r: seq<BodyBlock>)
    ensures HasTitle(sub) <==> |r| > 0 && r[0].SubsectionHeading?
    ensures HasTitle(sub) ==> r[0] == SubsectionHeading(Label(sub.numero, sub.titulo))
    ensures forall i :: 0 <= i < |r| ==> !r[i].SectionHeading?
    ensures forall i :: 0 < i < |r| ==> !r[i].SubsectionHeading?
  {
    (if HasTitle(sub) then [SubsectionHeading(Label(sub.numero, sub.titulo))] else [])
    + if Outline.IsSignatureSubsection(sub) then SignatureBlocks(a, upper)
      else ContentBlocks(sub) + ItemBlocks(sub.subSubsections)
  }

  /** The subsections' blocks in order; none of them is a section heading. */
  function RenderSubsections(subs: seq<SubSection>, a: Assinaturas, upper: string -> string): (r: seq<BodyBlock>)
    ensures forall i :: 0 <= i < |r| ==> !r[i].SectionHeading?
  {
    if |subs| == 0 then []
    else RenderSubsections(subs[..|subs| - 1], a, upper) + RenderSubsection(subs[|subs| - 1], a, upper)
  }

  /** A section's blocks: its heading "numero titulo" first, then its subsections', and no other section heading. */
  function RenderSection(section: Section, a: Assinaturas, upper: string -> string): (r: seq<BodyBlock>)
    ensures |r| > 0 && r[0] == SectionHeading(Label(section.numero, section.titulo))
    ensures r[1..] == RenderSubsections(section.subsections, a, upper)
    ensures forall i :: 0 < i < |r| ==> !r[i].SectionHeading?
  {
    [SectionHeading(Label(section.numero, section.titulo))] + RenderSubsections(section.subsections, a, upper)
  }

  /** The body: the sections' blocks in order; it opens with the first section's heading. */
  function RenderBody(body: seq<Section>, a: Assinaturas, upper: string -> string): (r: seq<BodyBlock>)
    ensures |r| >= |body|
    ensures |body| > 0 ==> r[0] == SectionHeading(Label(body[0].numero, body[0].titulo))
  {
    if |body| == 0 then []
    else
      var init := body[..|body| - 1];
      assert |init| > 0 ==> init[0] == body[0];
      RenderBody(init, a, upper) + RenderSection(body[|body| - 1], a, upper)
  }

  /** The texts of the section headings among `blocks`, in order. */
  function SectionLabels(blocks: seq<BodyBlock>): seq<string>
  {
    if |blocks| == 0 then []
    else
      var last := blocks[|blocks| - 1];
      SectionLabels(blocks[..|blocks| - 1]) + if last.SectionHeading? then [last.text] else []
  }

  lemma {:induction false} SectionLabelsAppend(x: seq<BodyBlock>, y: seq<BodyBlock>)
    ensures SectionLabels(x + y) == SectionLabels(x) + SectionLabels(y)
    decreases |y|
  {
    if |y| > 0 {
      assert (x + y)[..|x + y| - 1] == x + y[..|y| - 1];
      SectionLabelsAppend(x, y[..|y| - 1]);
    } else {
      assert x + y == x;
    }
  }

  lemma {:induction false} SectionLabelsOfSection(section: Section, a: Assinaturas, upper: string -> string)
    ensures SectionLabels(RenderSection(section, a, upper)) == [Label(section.numero, section.titulo)]
  {
    var r := RenderSection(section, a, upper);
    SectionLabelsAppend([r[0]], r[1..]);
    assert r == [r[0]] + r[1..];
    SectionLabelsNone(r[1..]);
    assert SectionLabels([r[0]]) == SectionLabels([]) + [r[0].text];
  }

  lemma {:induction false} SectionLabelsNone(blocks: seq<BodyBlock>)
    requires forall i :: 0 <= i < |blocks| ==> !blocks[i].SectionHeading?
    ensures SectionLabels(blocks) == []
    decreases |blocks|
  {
    if |blocks| > 0 {
      SectionLabelsNone(blocks[..|blocks| - 1]);
    }
  }

  /**
   * The section headings of the exported body are the sections' "numero
   * titulo", one per section, in document order.
   */
  lemma {:induction false} RenderBodyHeadings(body: seq<Section>, a: Assinaturas, upper: string -> string)
    ensures SectionLabels(RenderBody(body, a, upper)) ==
      seq(|body|, k requires 0 <= k < |body| => Label(body[k].numero, body[k].titulo))
    decreases |body|
  {
    if |body| > 0 {
      var n := |body| - 1;
      var init := body[..n];
      var rest := RenderBody(init, a, upper);
      var block := RenderSection(body[n], a, upper);
      var all := seq(|body|, k requires 0 <= k < |body| => Label(body[k].numero, body[k].titulo));
      var front := seq(|init|, k requires 0 <= k < |init| => Label(init[k].numero, init[k].titulo));
      assert all == front + [Label(body[n].numero, body[n].titulo)] by {
        forall k | 0 <= k < n ensures all[k] == front[k] {
          assert init[k] == body[k];
        }
      }
      calc {
        SectionLabels(RenderBody(body, a, upper));
        SectionLabels(rest + block);
        { SectionLabelsAppend(rest, block); }
        SectionLabels(rest) + SectionLabels(block);
        { RenderBodyHeadings(init, a, upper); SectionLabelsOfSection(body[n], a, upper); }
        front + [Label(body[n].numero, body[n].titulo)];
      }
    }
  }

  /** The blocks of the first m sections come first, in document order. */
  lemma {:induction false} RenderBodyPrefix(body: seq<Section>, a: Assinaturas, upper: string -> string, m: nat)
    requires m <= |body|
    ensures RenderBody(body[..m], a, upper) <= RenderBody(body, a, upper)
    decreases |body| - m
  {
    if m < |body| {
      var init := body[..|body| - 1];
      RenderBodyPrefix(init, a, upper, m);
      assert init[..m] == body[..m];
    } else {
      assert body[..m] == body;
    }
  }

  /**
   * Section k's blocks (its heading, then its subsections') form one
   * contiguous run, right after the blocks of the sections before it.
   */
  lemma RenderBodyAt(body: seq<Section>, a: Assinaturas, upper: string -> string, k: nat)
    requires k < |body|
    ensures var lo := |RenderBody(body[..k], a, upper)|;
      var block := RenderSection(body[k], a, upper);
      && lo + |block| <= |RenderBody(body, a, upper)|
      && RenderBody(body, a, upper)[lo..lo + |block|] == block
      && RenderBody(body, a, upper)[lo] == SectionHeading(Label(body[k].numero, body[k].titulo))
  {
    var block := RenderSection(body[k], a, upper);
    RenderBodyStep(body, a, upper, k);
    RenderBodyPrefix(body, a, upper, k + 1);
    BlockOfPrefix(RenderBody(body, a, upper), RenderBody(body[..k], a, upper), block);
  }

  lemma RenderBodyStep(body: seq<Section>, a: Assinaturas, upper: string -> string, k: nat)
    requires k < |body|
    ensures RenderBody(body[..k + 1], a, upper) == RenderBody(body[..k], a, upper) + RenderSection(body[k], a, upper)
  {
    var upto := body[..k + 1];
    assert upto[..k] == body[..k] && upto[k] == body[k];
  }

  /**
   * A subsection whose title contains "PROPOSIÇÃO" has its title printed and
   * renders the three signature blocks, proposer ("proposto por"), endorser ("visto por") and approver in
   * that order, instead of its content and items.
   */
  lemma SignatureDispatch(sub: SubSection, a: Assinaturas, upper: string -> string)
    requires Outline.IsSignatureSubsection(sub)
    ensures HasTitle(sub)
    ensures var r := RenderSubsection(sub, a, upper);
      && |r| == 4
      && r[0] == SubsectionHeading(Label(sub.numero, sub.titulo))
      && r[1] == SignatureBlock("Proposto por:", upper(a.propostoPor.nome), a.propostoPor.cargo)
      && r[2] == SignatureBlock("Visto por:", upper(a.vistoPor.nome), a.vistoPor.cargo)
      && r[3] == SignatureBlock("Aprovado por:", upper(a.aprovadoPor.nome), a.aprovadoPor.cargo)
  {
    assert !IsWhiteSpace("PROPOSIÇÃO"[0]);
    IncludesNonBlank(sub.titulo, "PROPOSIÇÃO");
    HasTitleIffNotBlank(sub);
  }

  /**
   * Any other subsection renders no signature block: its optional heading,
   * then its content block exactly when it has content (with the number in
   * front exactly when the title is blank), then one block per item.
   */
  lemma ContentDispatch(sub: SubSection, a: Assinaturas, upper: string -> string)
    requires !Outline.IsSignatureSubsection(sub)
    ensures var r := RenderSubsection(sub, a, upper);
      var h := if HasTitle(sub) then 1 else 0;
      var c := if sub.conteudo != "" then 1 else 0;
      && |r| == h + c + |sub.subSubsections|
      && (forall i :: 0 <= i < |r| ==> !r[i].SignatureBlock?)
      && (sub.conteudo != "" ==>
            r[h] == ContentBlock(if IsBlank(sub.titulo) then Some(sub.numero) else None, FormatContent(sub.conteudo)))
      && (forall i :: 0 <= i < |sub.subSubsections| ==>
            var item := sub.subSubsections[i];
            && r[h + c + i].ItemBlock?
            && r[h + c + i].heading == (if item.titulo != "" then TitledItem(Label(item.numero, item.titulo)) else NumberOnly(item.numero))
            && r[h + c + i].html == FormatContent(item.conteudo))
  {
    HasTitleIffNotBlank(sub);
    var r := RenderSubsection(sub, a, upper);
    var head := if HasTitle(sub) then [SubsectionHeading(Label(sub.numero, sub.titulo))] else [];
    var items := ItemBlocks(sub.subSubsections);
    assert r == head + ContentBlocks(sub) + items;
    assert r[|head| + |ContentBlocks(sub)|..] == items;
  }

  /** The subsection numbered "3.5" in the seed's closing section is the one rendered as signatures. */
  lemma InitialSignatureSubsection()
    ensures Outline.IsSignatureSubsection(Outline.FinalSection().subsections[3])
  {
    var t := Outline.FinalSection().subsections[3].titulo;
    assert t == "PROPOSIÇÃO, VISTO E APROVAÇÃO";
    assert OccursAt(t, "PROPOSIÇÃO", 0);
  }

  // ---------------------------------------------------------------------
  // The cover's annex list

  /** One line `${letra} - ${titulo}` of the cover's annex list (the lines are joined by "<br/>"). */
  datatype CoverLine = CoverLine(letra: seq<CodeUnit>, titulo: string)

  /** The cover's list: one line per annex, in order, with its letter and title. */
  function CoverAnnexList(anexos: seq<Anexo>): (r: seq<CoverLine>)
    ensures |r| == |anexos|
    ensures forall i :: 0 <= i < |r| ==> r[i].letra == anexos[i].letra && r[i].titulo == anexos[i].titulo
  {
    seq(|anexos|, i requires 0 <= i < |anexos| => CoverLine(anexos[i].letra, anexos[i].titulo))
  }

  /** After a removal the cover lists the remaining annexes as A, B, C, ... in order. */
  lemma CoverListAfterRemove(anexos: seq<Anexo>, id: int)
    requires Annexes.EditableWhereId(anexos, id)
    ensures var kept := WithoutId(anexos, AnexoId, id);
      var lines := CoverAnnexList(Annexes.RemoveAnexo(anexos, id));
      && |lines| == |kept|
      && forall i :: 0 <= i < |lines| ==> lines[i] == CoverLine(Annexes.LetterAt(i), kept[i].titulo)
  {
  }

  /** Adding an annex adds one untitled line with the next letter at the end of the cover list. */
  lemma CoverListAfterAdd(anexos: seq<Anexo>, id: int)
    ensures CoverAnnexList(Annexes.AddAnexo(anexos, id)) ==
      CoverAnnexList(anexos) + [CoverLine(Annexes.NextLetter(anexos), "")]
  {
    var r := Annexes.AddAnexo(anexos, id);
    forall i | 0 <= i < |anexos| ensures r[i] == anexos[i] {
      assert r[i] == r[..|anexos|][i];
    }
  }

  // ---------------------------------------------------------------------
  // The exported personnel roster

  /** What a template literal prints for a property read on a string. */
  const UNDEFINED_TEXT := "undefined"

  /**
   * The three prediction cells as the exporter prints them: it reads
   * postoGrad, quadro and especialidade, which a typed (string) cell lacks.
   */
  function PrevisaoCellsAsWritten(cell: PrevisaoCell): (r: seq<string>)
    ensures |r| == 3
    ensures cell.Typed? ==> r == [UNDEFINED_TEXT, UNDEFINED_TEXT, UNDEFINED_TEXT]
    ensures cell.Structured? ==> r == [cell.previsao.postoGrad, cell.previsao.quadro, cell.previsao.especialidade]
  {
    match cell
    case Structured(p) => [p.postoGrad, p.quadro, p.especialidade]
    case Typed(_) => [UNDEFINED_TEXT, UNDEFINED_TEXT, UNDEFINED_TEXT]
  }

  /** One exported roster row as written: eight cells, the typed predictions lost. */
  function RosterRowAsWritten(row: AnexoAItem): (r: seq<string>)
    ensures |r| == 8 && r[0] == row.funcao && r[7] == NumberToString(row.efetivoProposto)
    ensures r[1..4] == PrevisaoCellsAsWritten(row.previsaoPrincipal)
    ensures r[4..7] == PrevisaoCellsAsWritten(row.previsaoAlternativa)
  {
    [row.funcao] + PrevisaoCellsAsWritten(row.previsaoPrincipal) + PrevisaoCellsAsWritten(row.previsaoAlternativa)
    + [NumberToString(row.efetivoProposto)]
  }

  /**
   * As written, a prediction typed in the roster editor never reaches the
   * export: two rows that differ only in the typed text export identically,
   * as three "undefined" cells.
   */
  lemma TypedPrevisaoLostInExport(row: AnexoAItem, typed1: string, typed2: string)
    ensures RosterRowAsWritten(row.(previsaoPrincipal := Typed(typed1)))
         == RosterRowAsWritten(row.(previsaoPrincipal := Typed(typed2)))
    ensures RosterRowAsWritten(row.(previsaoPrincipal := Typed(typed1)))[1..4]
         == [UNDEFINED_TEXT, UNDEFINED_TEXT, UNDEFINED_TEXT]
  {
  }

  /** The prediction cells printing what was typed: the text in the first cell, the other two empty. */
  function PrevisaoCells(cell: PrevisaoCell): (r: seq<string>)
    ensures |r| == 3
    ensures cell.Typed? ==> r[0] == cell.text
    ensures cell.Structured? ==> r == [cell.previsao.postoGrad, cell.previsao.quadro, cell.previsao.especialidade]
  {
    match cell
    case Structured(p) => [p.postoGrad, p.quadro, p.especialidade]
    case Typed(t) => [t, "", ""]
  }

  /** One exported roster row: function, both predictions, the headcount. */
  function RosterRow(row: AnexoAItem): (r: seq<string>)
    ensures |r| == 8 && r[0] == row.funcao && r[1..4] == PrevisaoCells(row.previsaoPrincipal)
    ensures r[4..7] == PrevisaoCells(row.previsaoAlternativa) && r[7] == NumberToString(row.efetivoProposto)
  {
    [row.funcao] + PrevisaoCells(row.previsaoPrincipal) + PrevisaoCells(row.previsaoAlternativa)
    + [NumberToString(row.efetivoProposto)]
  }

  /**
   * Exported this way a row loses nothing the editor stores: the function,
   * a typed prediction and the headcount can all be read back from the cells.
   */
  lemma RosterRowKeepsTypedText(row: AnexoAItem)
    requires row.previsaoPrincipal.Typed? && row.previsaoAlternativa.Typed? && row.efetivoProposto.Num?
    ensures var r := RosterRow(row);
      && r[0] == row.funcao
      && r[1] == row.previsaoPrincipal.text
      && r[4] == row.previsaoAlternativa.text
      && ParseInt(r[7]) == row.efetivoProposto
  {
    ParseIntOfNumberToString(row.efetivoProposto.value);
  }

  /**
   * The roster export, on the corrected rows: one row per item, and a footer
   * that is the editor's own footer total (see RosterFooterReadsBack for how
   * it relates to the printed cells).
   */
  function RosterTable(rows: seq<AnexoAItem>): (r: (seq<seq<string>>, int))
    ensures |r.0| == |rows|
    ensures r.1 == TotalEfetivo(rows)
  {
    (seq(|rows|, i requires 0 <= i < |rows| => RosterRow(rows[i])), TotalEfetivo(rows))
  }

  /** The footer a reader would compute from the printed table: `parseInt` of each row's last cell, `|| 0`. */
  function FooterOfCells(cells: seq<seq<string>>): int
  {
    if |cells| == 0 then 0
    else
      var row := cells[|cells| - 1];
      FooterOfCells(cells[..|cells| - 1]) + OrZero(ParseInt(if |row| == 0 then "" else row[|row| - 1]))
  }

  /** A printed headcount reads back, through parseInt and `|| 0`, as what the total adds for it. */
  lemma HeadcountCellReadsBack(x: JsNumber)
    ensures OrZero(ParseInt(NumberToString(x))) == OrZero(x)
  {
    match x
    case Num(v) => ParseIntOfNumberToString(v);
    case NaN => assert TrimStart("NaN") == "NaN";
  }

  lemma RosterCellsStep(rows: seq<AnexoAItem>)
    requires |rows| > 0
    ensures RosterTable(rows).0[..|rows| - 1] == RosterTable(rows[..|rows| - 1]).0
    ensures RosterTable(rows).0[|rows| - 1][7] == NumberToString(rows[|rows| - 1].efetivoProposto)
  {
  }

  /**
   * The exported footer agrees with the printed headcounts: it is the sum of
   * what parseInt reads back from each row's last cell, where a NaN count,
   * printed "NaN", adds nothing, as `|| 0` makes it.
   */
  lemma {:induction false} RosterFooterReadsBack(rows: seq<AnexoAItem>)
    ensures RosterTable(rows).1 == FooterOfCells(RosterTable(rows).0)
    decreases |rows|
  {
    if |rows| > 0 {
      var n := |rows| - 1;
      var cells := RosterTable(rows).0;
      var x := rows[n].efetivoProposto;
      RosterCellsStep(rows);
      calc {
        FooterOfCells(cells);
        FooterOfCells(cells[..n]) + OrZero(ParseInt(NumberToString(x)));
        { HeadcountCellReadsBack(x); }
        FooterOfCells(RosterTable(rows[..n]).0) + OrZero(x);
        { RosterFooterReadsBack(rows[..n]); }
        TotalEfetivo(rows[..n]) + OrZero(x);
      }
    }
  }
}
