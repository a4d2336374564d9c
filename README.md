# NPA document editor: a verified model of its document core

SISTEMA-NPA is a form editor for a "Norma Padrão de Ação" (NPA), a military
administrative standard, with export to DOCX/PDF. This project models in
Dafny the part of it that has logic: the in-memory document and its editing
operations, and the deterministic computations the exporter performs on it.

- `NpaTypes.dfy`: the document record and its parts (sections, subsections,
  items, annex descriptors, signatories, roster and qualification rows).
- `Outline.dfy`: the outline editor. It adds and removes sections and
  subsections, renumbers them by position, edits titles, contents and
  signatures, and holds the seed document.
- `Annexes.dfy`: the annex list of the identification form. Letters go "A",
  "B", "C", …; a removal re-letters the rest by position.
- `ExportService.dfy`: the date and content formatting, the table of contents
  with its one-page-per-section estimate, the headcount total, the dispatch of
  each subsection to signature blocks, content or items, the cover's annex
  list and the exported roster rows.
- `RosterTable.dfy`: the personnel roster (annex A). A cell edit coerces the
  headcount with `parseInt`; the footer shows the total.
- `QualificationTable.dfy`: the qualification matrix (annex B). Rows are
  added, removed and edited; the role columns hold "0" or "1".
- `JsRuntime.dfy`: the JavaScript built-ins the code relies on. These are
  `String(n)`, `parseInt(s, 10)`, `trim`, `includes`, `String.fromCharCode`,
  `charCodeAt(0)` and `filter` by "id differs".

Each state update of the editor (`setNpaData(prev => next)`, or
`onDataChange(newList)`) becomes a function or method from the old value to
the new one. The steps that the source writes as loops or in-place
assignments are methods, proved against specification functions: removing
sections or subsections, the subsection-numbering loop, adding a subsection,
the two field edits, the table-of-contents builder and both cell-edit
handlers. The form only calls an operation when a flag allows it:
`removivel`, `tituloEditavel`, `conteudoEditavel`, `editavel`, and no editor
on the signature subsection. Those checks are preconditions here. Node
identifiers (timestamps in the editor) and today's date are parameters.

Behaviours of the code worth knowing:
- Removing a section whose identifier no section carries still renumbers the
  outline. See `Outline.RemoveAbsentSection`.
- The code has no operations that add or remove items (sub-subsections).
  Items are only rendered.
- A new annex gets "last letter + 1". After a removal the letters run from
  "A" again, so the next one follows on.
- In the table of contents, section rows are bold but not uppercase.
  Subsection rows are uppercase and underlined.
- The validity is stored as a plain string, but the form sets it only
  through a select offering "1 ANO", "2 ANOS", "3 ANOS" and
  "Prazo Indeterminado" (components/TabIdentificacao.tsx:77-87).

## Model

| member | source | states |
|---|---|---|
| JsRuntime.NatToString | App.tsx:100-103 | `${n}` of a natural number is non-empty, all digits, has no leading zero except "0" itself, and has one digit exactly when n < 10 |
| JsRuntime.DigitsValueOfNatToString | App.tsx:100-103 | reading the decimal digits of `${n}` gives n back |
| JsRuntime.NatToStringInjective | App.tsx:100-103 | two numbers print the same exactly when they are equal, so distinct positions get distinct numbers |
| JsRuntime.ParseIntOfDigits | components/AnexoATable.tsx:14 | a non-empty run of decimal digits, leading zeros included, parses to its value whenever what follows is not a digit |
| JsRuntime.ParseIntOfFraction | components/AnexoATable.tsx:14 | ".5" and "-.5" (a point before any digit) parse to NaN |
| JsRuntime.ParseIntOfDecimal | components/AnexoATable.tsx:14 | `parseInt(${n} + rest, 10)` is n whenever rest does not start with a digit |
| JsRuntime.ParseIntOfNegative | components/AnexoATable.tsx:14 | a leading minus sign gives the negated value |
| JsRuntime.ParseIntSkipsWhiteSpace | components/AnexoATable.tsx:14 | leading white space does not change what parseInt reads |
| JsRuntime.ParseInt | components/AnexoATable.tsx:14 | text with no digit at all parses to NaN; a number needs a digit, possibly after one sign, as the first non-blank characters; a negative one needs a minus sign there |
| JsRuntime.ParseIntOfNumberToString | components/AnexoATable.tsx:73-74 | parseInt reads back String(v) for every integer v |
| JsRuntime.NumberToString | components/AnexoATable.tsx:73-74 | `String(n)`: never empty; the digits alone for n ≥ 0, a minus sign then digits for n < 0, "NaN" for NaN |
| JsRuntime.FromCharCode | components/TabIdentificacao.tsx:18 | `String.fromCharCode(n)` is one code unit: n modulo 2^16, and 0 for NaN |
| JsRuntime.CharCodeAt0 | components/TabIdentificacao.tsx:18 | `charCodeAt(0)` is NaN exactly on the empty string; otherwise a code unit that fromCharCode turns back into the string's first unit |
| JsRuntime.CharCodeOfFromCharCode | components/TabIdentificacao.tsx:18 | the code unit fromCharCode writes is its argument modulo 2^16 |
| JsRuntime.Trim | services/exportService.ts:136 | `s.trim()` is empty exactly when every character of s is JavaScript white space; otherwise it neither starts nor ends with white space |
| JsRuntime.IncludesChar | services/exportService.ts:25 | for a one-character pattern, includes is membership |
| JsRuntime.Includes | services/exportService.ts:144 | `s.includes(part)` holds only when part is no longer than s |
| JsRuntime.IncludesNonBlank | services/exportService.ts:136-144 | a title that contains a non-blank pattern is not blank |
| JsRuntime.WithoutIdAppend | App.tsx:99 | the filter by "id differs" distributes over concatenation, so survivors keep their relative order |
| JsRuntime.WithoutIdMultiset | App.tsx:99 | the filter keeps every element whose id differs with its full multiplicity and drops every element carrying the id |
| JsRuntime.WithoutIdMembers | App.tsx:99 | an element survives exactly when it was there and does not carry the id |
| JsRuntime.WithoutAbsentId | App.tsx:99 | filtering an id no element carries changes nothing |
| JsRuntime.WithoutId | App.tsx:99 | `filter(x => x.id !== id)`: no longer than the input, and no survivor carries the id (order and multiplicities: the lemmas below) |
| JsRuntime.WithoutFreshLast | App.tsx:93 | filtering out the id of a freshly appended element gives back the list before it |
| Outline.RenumberBody | App.tsx:100-107 | after the renumbering pass section k is "k+1" and its subsection j "k+1.j+1", whatever the numbers were; only numbers change, items included |
| Outline.RenumberBodyFixedIffPositional | App.tsx:100-107 | the renumbering pass leaves an outline unchanged exactly when its numbers were already positional |
| Outline.AddSection | App.tsx:82-95 | appends exactly one section, numbered with the old count + 1, with an empty title, title editable, removable and no subsections; the earlier sections and the rest of the document are unchanged |
| Outline.AddSectionKeepsPositional | App.tsx:82-95 | adding a section keeps positional numbering |
| Outline.NumberSubsections | App.tsx:102-104 | the numbering loop gives subsection j the number "prefix.j+1" and changes nothing else |
| Outline.RemoveSection | App.tsx:97-110 | the new outline is the renumbered filter of the old one and is positionally numbered; the rest of the document is unchanged |
| Outline.RemoveAbsentSection | App.tsx:97-110 | removing an id no section carries still renumbers: the result is the outline itself exactly when it was already positional |
| Outline.RemoveSectionSurvivors | App.tsx:99-107 | the survivors are exactly the sections not carrying the id, in their order, each changed only in its numbers |
| Outline.RemoveSectionKeepsFixedSections | components/TabCorpoTexto.tsx:48-50 | a section that is not removable is still in the outline after any removal the form offers, changed only in its numbers |
| Outline.RemoveAddedSection | App.tsx:82-110 | on a positionally numbered outline, removing a freshly added section gives back the outline |
| Outline.AddSubsection | App.tsx:112-130 | appends to section i only a subsection numbered "numero.count+1" with every flag true; other sections are unchanged; positional numbering is kept |
| Outline.RemoveSubsection | App.tsx:132-144 | filters section i's subsections by id and renumbers the survivors under that section's number; other sections are unchanged; positional numbering is kept |
| Outline.RemoveSubsectionSurvivors | App.tsx:135-140 | the survivors are the other subsections in order, renumbered only, none carrying the id |
| Outline.RemoveAddedSubsection | App.tsx:112-144 | when a section's subsections are numbered under it, removing a freshly added subsection gives back the section |
| Outline.HandleBodyContentChange | App.tsx:70-74 | changes only the chosen field (title or content) of the subsection at (section, subsection); every other subsection, section and field is unchanged; positional numbering is kept |
| Outline.HandleSectionTitleChange | App.tsx:76-80 | changes only the title of section i; positional numbering is kept |
| Outline.HandleSignatureChange | App.tsx:146-157 | sets exactly the chosen field of the chosen signatory; the other field, the other two signatories and the rest of the document are unchanged |
| Outline.HandleSignatureChangeUndo | App.tsx:146-157 | writing the previous value back gives back the document |
| Outline.InitialBodyNotPositional | App.tsx:39-42 | the seed outline is not positional: its closing section's subsections jump from "3.2" to "3.4" |
| Outline.InitialBodyRenumberedByAbsentRemoval | App.tsx:41-42 | removing an absent id from the seed renumbers "3.4", "3.5" to "3.3", "3.4" |
| Outline.InitialNpaData | App.tsx:10-58 | the seed keeps the given issue date; its three sections are numbered "1" to "3" and none is removable; its annexes are two fixed ones and an editable one; the roster starts with three rows and the matrix empty |
| Annexes.NextLetter | components/TabIdentificacao.tsx:17-18 | the new letter is one code unit past the first unit of the last annex's letter, modulo 2^16; "A" on an empty list (one past "@"); unit 0 after an empty letter (NaN) |
| Annexes.AddAnexo | components/TabIdentificacao.tsx:16-27 | appends one annex with the next letter, empty title, kind custom and editable; the existing annexes are unchanged |
| Annexes.AddAnexoKeepsLettered | components/TabIdentificacao.tsx:17-26 | if the letters ran "A", "B", … before an addition, they still do after it |
| Annexes.AddAnexoAfterZ | components/TabIdentificacao.tsx:18 | the annex added after "Z" gets "[", the next code unit |
| Annexes.RemoveAnexo | components/TabIdentificacao.tsx:36-43 | drops every annex with the id; the survivors keep their order and all fields but the letter, and annex i gets letter "A" + i |
| Annexes.Reletter | components/TabIdentificacao.tsx:38-41 | the re-lettering pass gives annex i the letter "A" + i and keeps every other field and the order |
| Annexes.ReletterFixedIffLettered | components/TabIdentificacao.tsx:38-41 | re-lettering leaves a list unchanged exactly when its letters already ran from "A" |
| Annexes.RemoveAbsentAnexo | components/TabIdentificacao.tsx:36-43 | removing an absent id returns the list itself exactly when it was lettered |
| Annexes.RemoveAddedAnexo | components/TabIdentificacao.tsx:16-43 | on a lettered list, removing a freshly added annex gives back the list |
| Annexes.RemoveAnexoKeepsFixed | components/TabIdentificacao.tsx:133-137 | a non-editable annex (no remove button) survives every removal the form offers, only re-lettered |
| Annexes.UpdateAnexoTitle | components/TabIdentificacao.tsx:29-34 | only annexes with the id get the new title; length, order, letters and every other field are unchanged |
| Annexes.UpdateAnexoTitleKeepsLetters | components/TabIdentificacao.tsx:29-34 | renaming keeps the lettering and editability, and renaming twice to the same title is renaming once |
| Annexes.InitialAnnexesLettered | App.tsx:16-20 | the seed annexes are lettered "A", "B", "C" in order |
| ExportService.PadDayRoundTrip | services/exportService.ts:9 | padding the value of two digits to two places with "0" gives the same two digits |
| ExportService.FormatDate | services/exportService.ts:5-15 | "" gives ""; "YYYY-MM-DD" gives the two day digits, a space, months[MM-1] from JAN…DEZ, a space and the year as a number |
| ExportService.MonthsDistinct | services/exportService.ts:10 | the twelve month abbreviations are distinct |
| ExportService.FormatDatePieces | services/exportService.ts:8-14 | the printed date holds the day digits, the month name and the year at fixed places |
| ExportService.FormatDateInjective | services/exportService.ts:5-15 | two dates print the same exactly when they are equal |
| ExportService.ReplaceNewlines | services/exportService.ts:25 | the result has no newline, and has a '<' whenever the input had a newline |
| ExportService.RestoreReplaceNewlines | services/exportService.ts:24-26 | on text without '<', turning each "<br/>" back into a newline gives the text back |
| ExportService.FormatContent | services/exportService.ts:21-29 | "" gives ""; text without '<' and with a newline gets every newline replaced by "<br/>"; anything else is returned unchanged |
| ExportService.FormatContentIdempotent | services/exportService.ts:21-29 | formatting formatted content changes nothing |
| ExportService.FormatContentRoundTrip | services/exportService.ts:24-26 | on plain text (no '<') the newlines can be read back from the formatted content |
| ExportService.CreateSummaryRow | services/exportService.ts:39-52 | a row keeps its text and page; it is bold exactly at level 0, uppercase and underlined exactly at level 1 |
| ExportService.GenerateSummary | services/exportService.ts:35-64 | the nested loop with its page counter builds exactly the table of contents `Summary(body)` |
| ExportService.BodyRows | services/exportService.ts:54-60 | the body part of the table of contents has one row per section and one per subsection (order and pages: BodyRowsPrefix, BodyRowsAt) |
| ExportService.BodyRowsPrefix | services/exportService.ts:54-60 | the rows of the first m sections come first, in document order |
| ExportService.BodyRowsAt | services/exportService.ts:54-60 | section k's rows form one contiguous block at a known index, on page first + k |
| ExportService.Summary | services/exportService.ts:35-64 | the table of contents has sections + subsections + 1 rows, and the last is a bold "REFERÊNCIAS" on page 2 + the number of sections |
| ExportService.SummarySectionRows | services/exportService.ts:54-60 | section k's row is "numero titulo", bold, on page 2 + k, followed by its subsections' rows on the same page |
| ExportService.SectionRowsShape | services/exportService.ts:55-57 | a section's block is its own bold row followed by one uppercase, underlined row per subsection, all with the same page |
| ExportService.TotalEfetivo | services/exportService.ts:66 | the reduce with `|| 0`: not negative when no count is negative, and 0 when every count is 0 or NaN |
| ExportService.TotalEfetivoAppend | services/exportService.ts:66 | the total of two roster parts is the sum of their totals |
| ExportService.TotalEfetivoReplace | components/AnexoATable.tsx:22-24 | replacing one row moves the total by exactly the change in that row's count (0 and NaN counting as 0) |
| ExportService.TotalEfetivoBounds | services/exportService.ts:66 | with no negative count the total is non-negative and at least every row's count |
| ExportService.InitialRosterTotal | App.tsx:52-56 | the seed roster totals 3 |
| ExportService.HasTitleIffNotBlank | services/exportService.ts:136 | a subsection's heading is printed exactly when its title is not blank |
| ExportService.SignatureDispatch | services/exportService.ts:139-170 | a subsection whose title contains "PROPOSIÇÃO" prints its heading and then the proposer ("proposto por"), endorser ("visto por") and approver blocks in that order, names uppercased, instead of content and items |
| ExportService.ContentDispatch | services/exportService.ts:171-190 | any other subsection prints no signature block; a content block exactly when it has content, with the bold number in front exactly when the title is blank; then one block per item, headed "numero titulo" when the item has a title and by its bare number otherwise, over its formatted content |
| ExportService.InitialSignatureSubsection | App.tsx:42 | the seed's "3.5" subsection is the one rendered as signatures |
| ExportService.RenderSubsection | services/exportService.ts:136-192 | a subsection's blocks open with its heading exactly when its title is not blank, and hold no other heading |
| ExportService.RenderSubsections | services/exportService.ts:135-193 | a section's subsection blocks hold no section heading |
| ExportService.RenderSection | services/exportService.ts:131-194 | a section's blocks are its heading "numero titulo" followed by its subsections' blocks, with no other section heading |
| ExportService.RenderBody | services/exportService.ts:130-195 | the exported body has at least one block per section and opens with the first section's heading |
| ExportService.RenderBodyHeadings | services/exportService.ts:130-132 | the section headings of the exported body are the sections' "numero titulo", one per section, in document order |
| ExportService.RenderBodyAt | services/exportService.ts:130-195 | section k's blocks form one contiguous run right after those of the sections before it, opening with its heading |
| ExportService.CoverListAfterRemove | services/exportService.ts:112 | after a removal the cover lists the remaining annexes as "A - …", "B - …", … in order |
| ExportService.CoverListAfterAdd | services/exportService.ts:112 | an addition appends one untitled line with the next letter to the cover list |
| ExportService.CoverAnnexList | services/exportService.ts:112 | one cover line (a `CoverLine`) per annex, in order, with its letter and title |
| ExportService.TypedPrevisaoLostInExport | services/exportService.ts:236-241 | as written, a prediction typed in the roster exports as three "undefined" cells, whatever was typed |
| ExportService.PrevisaoCellsAsWritten | services/exportService.ts:236-241 | as written: a record prints its three fields, a typed string three "undefined" |
| ExportService.RosterRowAsWritten | services/exportService.ts:234-243 | as written: eight cells, function, the two predictions as the exporter reads them, headcount |
| ExportService.PrevisaoCells | services/exportService.ts:236-241 | corrected: three cells; a record prints its three fields; typed text appears in the first cell |
| ExportService.RosterRow | services/exportService.ts:234-243 | corrected: eight cells: function, the principal and alternative predictions, headcount |
| ExportService.RosterRowKeepsTypedText | services/exportService.ts:236-242 | the function, typed predictions and headcount can be read back from an exported row |
| ExportService.RosterTable | services/exportService.ts:233-251 | corrected: one exported row per roster item, and a footer equal to the editor's footer total |
| ExportService.HeadcountCellReadsBack | services/exportService.ts:242 | parseInt of a printed headcount, with `\|\| 0`, gives back the headcount with `\|\| 0`; "NaN" reads back as 0 |
| ExportService.RosterFooterReadsBack | services/exportService.ts:242-249 | the exported footer (the `\|\| 0` sum of line 66) is the sum of what parseInt reads back from each row's last cell, a NaN count, printed "NaN", adding nothing; the headcount cell and footer are the same in the as-written rows |
| RosterTable.StoredEfetivo | components/AnexoATable.tsx:13-15 | the stored headcount is never NaN: parseInt's value when it has one, 0 exactly when parseInt gives NaN |
| RosterTable.StoredEfetivoOfDecimal | components/AnexoATable.tsx:14-15 | typing a run of decimal digits, leading zeros included ("007"), stores its value whatever non-digit follows |
| RosterTable.StoredEfetivoOfFraction | components/AnexoATable.tsx:14-15 | typing ".5" or "-.5" stores 0 |
| RosterTable.StoredEfetivoOfNegative | components/AnexoATable.tsx:14-15 | negative headcounts are stored as typed, not clamped |
| RosterTable.StoredEfetivoWithoutDigits | components/AnexoATable.tsx:14-15 | text without digits, the cleared input among it, stores 0 |
| RosterTable.StoredEfetivoOfShown | components/AnexoATable.tsx:73-74 | re-entering the number the input shows stores the same number |
| RosterTable.EditedRow | components/AnexoATable.tsx:13-18 | the edited field takes the value (a typed prediction replaces the whole record, the headcount is coerced); the id and every other field are kept |
| RosterTable.HandleCellChange | components/AnexoATable.tsx:11-20 | only row rowIndex changes, to its edited version; the footer total moves by that row's change; a roster without NaN counts stays without them |
| RosterTable.FooterTotalAfterDecimalEdit | components/AnexoATable.tsx:22-24 | after typing a decimal n into row i the footer total moves by n minus that row's old count |
| QualificationTable.AddRow | components/AnexoBTable.tsx:18-30 | appends one row with the id, empty texts and every role flag "0"; the other rows are unchanged |
| QualificationTable.RemoveRow | components/AnexoBTable.tsx:32-34 | keeps exactly the rows whose id differs |
| QualificationTable.RemoveRowKeepsOrder | components/AnexoBTable.tsx:33 | removal distributes over the list, so rows keep their order |
| QualificationTable.RemoveAbsentRow | components/AnexoBTable.tsx:33 | removing an absent id changes nothing |
| QualificationTable.RemoveAddedRow | components/AnexoBTable.tsx:18-34 | removing a freshly added row gives back the matrix |
| QualificationTable.EditedRow | components/AnexoBTable.tsx:14 | the edited field takes the value; the id and every other field are kept |
| QualificationTable.HandleCellChange | components/AnexoBTable.tsx:12-16 | only row rowIndex changes, to its edited version; role flags stay "0"/"1" |
| QualificationTable.AddRemoveKeepFlags | components/AnexoBTable.tsx:25-27 | adding and removing rows keep every role flag "0" or "1" |

## Findings

| source | as written | input that shows it | evidently intended | confidence | as-written member | corrected member |
|---|---|---|---|---|---|---|
| services/exportService.ts:236-241 with components/AnexoATable.tsx:55-68 | the roster editor stores a typed prediction as a plain string; the exporter reads `postoGrad`, `quadro` and `especialidade` from it, which a string lacks, so it prints "undefined" three times | type "2S BMB" into the principal prediction of any row and export | the exported roster shows the prediction that was typed | high that typed text never reaches the export; not executed | ExportService.TypedPrevisaoLostInExport | ExportService.RosterRowKeepsTypedText |

`ExportService.RosterRowAsWritten` models the exporter as written.
`ExportService.RosterRow` is the corrected version and is the one
`ExportService.RosterTable` uses. It prints typed text in the first of the
three prediction cells. The source does not say how the three cells should
split typed text.

## Left out

- Rendering in JSX, tab switching and React state hooks (Tabs, TabAnexos, and TabCorpoTexto except its flag checks, which are preconditions here).
- The rich-text editors and their paste sanitizer depend on the DOM and on regular expressions over HTML. Contents and titles are opaque strings here.
- `exportToDocx`, `exportToPdf`, the asynchronous export in App.tsx and its `alert` are I/O and external libraries. Running headers and page parity do not appear in the code shown.
- Styled HTML: the inline CSS, the logo and the fixed letterhead text are not modelled. The table of contents, the body and the cover list are abstract entries (rows, blocks, lines). The cover list's join with "<br/>" and the dotted leaders are not modelled.
- The qualification matrix's export table, the references page wrapper and the annex page titles. The references text goes through `ExportService.FormatContent`.
- `handleDataChange` sets any document field by name to an untyped value. It is a generic setter. The lists it stores come from the modelled annex, roster and matrix operations.
- Aliasing: `removeSection`, `addSubsection`, `removeSubsection`, `handleBodyContentChange` and `handleSectionTitleChange` assign into section and subsection objects that the previous state shares. The model is value-based and leaves the previous document unchanged.
- `handleBodyContentChange` and `handleSectionTitleChange` read the current render's document instead of `prev`. An update lost under batched updates is not modelled.
- Identifiers from `Date.now()` and the seed's issue date from `new Date()` are parameters.
- `toUpperCase` on signatory names is an abstract `upper` function, because Unicode case mapping is not modelled.
- ExportService.FormatDate: requires "" or a calendar-valid "YYYY-MM-DD" with a four-digit year. Dates with years above 9999, which a date input can hold, are not covered. For an impossible date, the source's `Date` rolls over or prints "NaN undefined NaN"; the model does not cover that either.
- RosterTable.StoredEfetivo: headcounts are integers. Typing "-0" stores JavaScript's -0, which prints as "0"; here it is 0. Precision loss above 2^53 is not modelled.
- The roster inputs show a prediction record as "[object Object]". That is a display detail and is not modelled.
- Items (sub-subsections) have no add or remove operation in the code. They are only carried along and rendered.
