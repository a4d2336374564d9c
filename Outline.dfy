/**
 * The outline editor of App.tsx: sections, their subsections and the display
 * numbers the editor derives from positions.
 *
 * Every handler maps the previous document to the next one, as the state
 * updaters of the editor do. A new node's identifier (a timestamp in the
 * editor) is a parameter. The editability and removability flags are checked
 * by the form before it calls a handler, so they are preconditions here.
 */
module Outline {
  import opened JsRuntime
  import opened NpaTypes

  // ---------------------------------------------------------------------
  // Positional numbering

  /** `${prefix}.${j + 1}`: the number of the j-th (0-based) subsection under `prefix`. */
  function SubNumber(prefix: string, j: nat): string
  {
    prefix + "." + NatToString(j + 1)
  }

  /** Subsection j of `subs` is numbered "prefix.j+1". */
  predicate SubsNumberedUnder(subs: seq<SubSection>, prefix: string)
  {
    forall j :: 0 <= j < |subs| ==> subs[j].numero == SubNumber(prefix, j)
  }

  /** Section k (0-based) is numbered "k+1" and its subsection j "k+1.j+1". */
  predicate Positional(body: seq<Section>)
  {
    forall k :: 0 <= k < |body| ==>
      body[k].numero == NatToString(k + 1) && SubsNumberedUnder(body[k].subsections, body[k].numero)
  }

  /** `b` is `a` except, possibly, for the numbers of the section and of its subsections. */
  predicate SameButNumbers(a: Section, b: Section)
  {
    && b.(numero := a.numero, subsections := a.subsections) == a
    && |b.subsections| == |a.subsections|
    && forall j :: 0 <= j < |a.subsections| ==>
         b.subsections[j].(numero := a.subsections[j].numero) == a.subsections[j]
  }

  /** Renumber every subsection by its position under `prefix`; nothing else changes. */
  function RenumberSubsections(subs: seq<SubSection>, prefix: string): seq<SubSection>
  {
    seq(|subs|, j requires 0 <= j < |subs| => subs[j].(numero := SubNumber(prefix, j)))
  }

  function RenumberSection(section: Section, numero: string): Section
  {
    section.(numero := numero, subsections := RenumberSubsections(section.subsections, numero))
  }

  /**
   * The renumbering pass of removeSection: section k becomes "k+1", its
   * subsections "k+1.j+1", whatever the numbers were; nothing but numbers changes.
   */
  function RenumberBody(body: seq<Section>): (r: seq<Section>)
    ensures Positional(r)
    ensures |r| == |body|
    ensures forall k :: 0 <= k < |body| ==> SameButNumbers(body[k], r[k])
  {
    seq(|body|, k requires 0 <= k < |body| => RenumberSection(body[k], NatToString(k + 1)))
  }

  /** Renumbering leaves an outline unchanged exactly when its numbers were already positional. */
  lemma RenumberBodyFixedIffPositional(body: seq<Section>)
    ensures RenumberBody(body) == body <==> Positional(body)
  {
    if Positional(body) {
      forall k | 0 <= k < |body| ensures RenumberBody(body)[k] == body[k] {
        var subs := body[k].subsections;
        assert RenumberSubsections(subs, body[k].numero) == subs;
      }
    }
  }

  // ---------------------------------------------------------------------
  // addSection, removeSection

  /**
   * addSection: appends an empty, editable, removable section numbered from
   * the current count; the sections already there are untouched.
   */
  function AddSection(prev: NpaData, id: int): (next: NpaData)
    ensures next == prev.(body := next.body)
    ensures |next.body| == |prev.body| + 1 && next.body[..|prev.body|] == prev.body
    ensures next.body[|prev.body|] == Section(id, NatToString(|prev.body| + 1), "", true, true, [])
  {
    prev.(body := prev.body + [Section(id, NatToString(|prev.body| + 1), "", true, true, [])])
  }

  /** Appending a section keeps positional numbering. */
  lemma AddSectionKeepsPositional(prev: NpaData, id: int)
    requires Positional(prev.body)
    ensures Positional(AddSection(prev, id).body)
  {
    var body := AddSection(prev, id).body;
    forall k | 0 <= k < |body|
      ensures body[k].numero == NatToString(k + 1) && SubsNumberedUnder(body[k].subsections, body[k].numero)
    {
      if k < |prev.body| {
        assert body[k] == body[..|prev.body|][k] == prev.body[k];
      }
    }
  }

  /**
   * The loop that rewrites subsection numbers in place: afterwards subsection
   * j is numbered "prefix.j+1" and nothing else has changed.
   */
  method NumberSubsections(subs: seq<SubSection>, prefix: string) returns (r: seq<SubSection>)
    ensures r == RenumberSubsections(subs, prefix)
    ensures |r| == |subs| && SubsNumberedUnder(r, prefix)
    ensures forall j :: 0 <= j < |subs| ==> r[j].(numero := subs[j].numero) == subs[j]
  {
    r := subs;
    var subIndex := 0;
    while subIndex < |r|
      invariant 0 <= subIndex <= |r| == |subs|
      invariant forall j :: 0 <= j < subIndex ==> r[j] == subs[j].(numero := SubNumber(prefix, j))
      invariant forall j :: subIndex <= j < |r| ==> r[j] == subs[j]
    {
      r := r[subIndex := r[subIndex].(numero := SubNumber(prefix, subIndex))];
      subIndex := subIndex + 1;
    }
  }

  /**
   * removeSection: drops every section carrying `sectionId`, then numbers the
   * survivors by position and their subsections under the new numbers. Only
   * removable sections are offered for removal.
   */
  method RemoveSection(prev: NpaData, sectionId: int) returns (next: NpaData)
    requires forall k :: 0 <= k < |prev.body| && prev.body[k].id == sectionId ==> prev.body[k].removivel
    ensures next == prev.(body := RenumberBody(WithoutId(prev.body, SectionId, sectionId)))
    ensures Positional(next.body)
  {
    var kept := WithoutId(prev.body, SectionId, sectionId);
    var newBody: seq<Section> := [];
    var index := 0;
    while index < |kept|
      invariant 0 <= index <= |kept|
      invariant |newBody| == index
      invariant forall k :: 0 <= k < index ==> newBody[k] == RenumberSection(kept[k], NatToString(k + 1))
    {
      var section := kept[index];
      var newSectionNumber := NatToString(index + 1);
      var subs := NumberSubsections(section.subsections, newSectionNumber);
      newBody := newBody + [section.(numero := newSectionNumber, subsections := subs)];
      index := index + 1;
    }
    next := prev.(body := newBody);
  }

  /** On a positionally numbered outline, removing a freshly added section undoes the addition. */
  lemma RemoveAddedSection(prev: NpaData, id: int)
    requires Positional(prev.body)
    requires forall k :: 0 <= k < |prev.body| ==> prev.body[k].id != id
    ensures RenumberBody(WithoutId(AddSection(prev, id).body, SectionId, id)) == prev.body
  {
    var body := AddSection(prev, id).body;
    var added := body[|prev.body|];
    assert body == prev.body + [added];
    WithoutFreshLast(prev.body, added, SectionId, id);
    RenumberBodyFixedIffPositional(prev.body);
  }

  /**
   * Removing an identifier no section carries still renumbers: the outline
   * comes back unchanged exactly when its numbering was already positional.
   */
  lemma RemoveAbsentSection(body: seq<Section>, sectionId: int)
    requires forall k :: 0 <= k < |body| ==> body[k].id != sectionId
    ensures RenumberBody(WithoutId(body, SectionId, sectionId)) == RenumberBody(body)
    ensures RenumberBody(WithoutId(body, SectionId, sectionId)) == body <==> Positional(body)
  {
    WithoutAbsentId(body, SectionId, sectionId);
    RenumberBodyFixedIffPositional(body);
  }

  /**
   * The survivors of removeSection are exactly the sections not carrying the
   * identifier, in their original order, each changed only in its numbers.
   */
  lemma RemoveSectionSurvivors(body: seq<Section>, sectionId: int)
    ensures var r := RenumberBody(WithoutId(body, SectionId, sectionId));
      && |r| == |WithoutId(body, SectionId, sectionId)|
      && (forall k :: 0 <= k < |r| ==> r[k].id != sectionId)
      && (forall k :: 0 <= k < |r| ==> SameButNumbers(WithoutId(body, SectionId, sectionId)[k], r[k]))
      && (forall s :: s in WithoutId(body, SectionId, sectionId) <==> s in body && s.id != sectionId)
  {
    var kept := WithoutId(body, SectionId, sectionId);
    WithoutIdMembers(body, SectionId, sectionId);
    var r := RenumberBody(kept);
    forall k | 0 <= k < |r| ensures r[k].id != sectionId {
      assert r[k].id == kept[k].id;
    }
  }

  /**
   * A section that is not removable survives any removal the form can ask
   * for: it is still in the outline, at position `m`, changed only in its numbers.
   */
  lemma RemoveSectionKeepsFixedSections(body: seq<Section>, sectionId: int, k: nat) returns (m: nat)
    requires forall i :: 0 <= i < |body| && body[i].id == sectionId ==> body[i].removivel
    requires k < |body| && !body[k].removivel
    ensures m < |RenumberBody(WithoutId(body, SectionId, sectionId))|
    ensures SameButNumbers(body[k], RenumberBody(WithoutId(body, SectionId, sectionId))[m])
  {
    var kept := WithoutId(body, SectionId, sectionId);
    WithoutIdMembers(body, SectionId, sectionId);
    assert body[k] in kept;
    m :| 0 <= m < |kept| && kept[m] == body[k];
  }

  // ---------------------------------------------------------------------
  // addSubsection, removeSubsection

  /** The subsection addSubsection appends: empty, fully editable and removable. */
  function NewSubsection(id: int, numero: string): SubSection
  {
    SubSection(id, numero, "", "", true, true, true, [])
  }

  /**
   * addSubsection: pushes a new subsection onto section `sectionIndex`,
   * numbered after that section's current number and subsection count.
   * Every other section is untouched.
   */
  method AddSubsection(prev: NpaData, sectionIndex: nat, id: int) returns (next: NpaData)
    requires sectionIndex < |prev.body|
    ensures var target := prev.body[sectionIndex];
      next == prev.(body := prev.body[sectionIndex := target.(subsections := target.subsections +
        [NewSubsection(id, SubNumber(target.numero, |target.subsections|))])])
    ensures Positional(prev.body) ==> Positional(next.body)
    ensures SubsNumberedUnder(prev.body[sectionIndex].subsections, prev.body[sectionIndex].numero) ==>
      SubsNumberedUnder(next.body[sectionIndex].subsections, next.body[sectionIndex].numero)
  {
    var newBody := prev.body;
    var targetSection := newBody[sectionIndex];
    var newSubNumber := SubNumber(targetSection.numero, |targetSection.subsections|);
    var newSubsection := NewSubsection(id, newSubNumber);
    targetSection := targetSection.(subsections := targetSection.subsections + [newSubsection]);
    newBody := newBody[sectionIndex := targetSection];
    next := prev.(body := newBody);
  }

  /** removeSubsection on one section: filter by id, then number under the section's own number. */
  function WithoutSubsection(section: Section, subsectionId: int): Section
  {
    section.(subsections := RenumberSubsections(WithoutId(section.subsections, SubSectionId, subsectionId), section.numero))
  }

  /**
   * removeSubsection: drops the subsections of section `sectionIndex` that
   * carry `subsectionId` and renumbers the rest under that section's current
   * number. Other sections, and the section's own fields, are untouched. The
   * form offers removal only for removable subsections outside the signature
   * subsection.
   */
  method RemoveSubsection(prev: NpaData, sectionIndex: nat, subsectionId: int) returns (next: NpaData)
    requires sectionIndex < |prev.body|
    requires var subs := prev.body[sectionIndex].subsections;
      forall j :: 0 <= j < |subs| && subs[j].id == subsectionId ==> subs[j].removivel && !IsSignatureSubsection(subs[j])
    ensures next == prev.(body := prev.body[sectionIndex := WithoutSubsection(prev.body[sectionIndex], subsectionId)])
    ensures SubsNumberedUnder(next.body[sectionIndex].subsections, prev.body[sectionIndex].numero)
    ensures Positional(prev.body) ==> Positional(next.body)
  {
    var newBody := prev.body;
    var targetSection := newBody[sectionIndex];
    var kept := WithoutId(targetSection.subsections, SubSectionId, subsectionId);
    var subs := NumberSubsections(kept, targetSection.numero);
    targetSection := targetSection.(subsections := subs);
    newBody := newBody[sectionIndex := targetSection];
    next := prev.(body := newBody);
  }

  /**
   * When a section's subsections are numbered under it, removing a freshly
   * added subsection undoes the addition.
   */
  lemma RemoveAddedSubsection(section: Section, id: int)
    requires SubsNumberedUnder(section.subsections, section.numero)
    requires forall j :: 0 <= j < |section.subsections| ==> section.subsections[j].id != id
    ensures var added := NewSubsection(id, SubNumber(section.numero, |section.subsections|));
      WithoutSubsection(section.(subsections := section.subsections + [added]), id) == section
  {
    var added := NewSubsection(id, SubNumber(section.numero, |section.subsections|));
    WithoutFreshLast(section.subsections, added, SubSectionId, id);
    assert RenumberSubsections(section.subsections, section.numero) == section.subsections;
  }

  /** The survivors of removeSubsection are the other subsections, in order, renumbered only. */
  lemma RemoveSubsectionSurvivors(section: Section, subsectionId: int)
    ensures var kept := WithoutId(section.subsections, SubSectionId, subsectionId);
      var r := WithoutSubsection(section, subsectionId);
      && r.(subsections := section.subsections) == section
      && |r.subsections| == |kept|
      && (forall j :: 0 <= j < |kept| ==> r.subsections[j].(numero := kept[j].numero) == kept[j])
      && (forall j :: 0 <= j < |kept| ==> r.subsections[j].id != subsectionId)
  {
  }

  // ---------------------------------------------------------------------
  // Field edits

  datatype BodyField = Titulo | Conteudo

  /** The subsection the exporter turns into the signature blocks. */
  predicate IsSignatureSubsection(sub: SubSection)
  {
    Includes(sub.titulo, "PROPOSIÇÃO")
  }

  /**
   * The form offers an editor for a subsection field only outside the
   * signature subsection, and only when that field is flagged editable.
   */
  predicate MayEdit(sub: SubSection, field: BodyField)
  {
    && !IsSignatureSubsection(sub)
    && (if field == Titulo then sub.tituloEditavel else sub.conteudoEditavel)
  }

  /**
   * handleBodyContentChange: sets the title or the content of one subsection;
   * every other field, subsection and section is unchanged.
   */
  method HandleBodyContentChange(prev: NpaData, sectionIndex: nat, subsectionIndex: nat, field: BodyField, value: string)
    returns (next: NpaData)
    requires sectionIndex < |prev.body| && subsectionIndex < |prev.body[sectionIndex].subsections|
    requires MayEdit(prev.body[sectionIndex].subsections[subsectionIndex], field)
    ensures next == prev.(body := next.body) && |next.body| == |prev.body|
    ensures forall k :: 0 <= k < |prev.body| && k != sectionIndex ==> next.body[k] == prev.body[k]
    ensures var before, after := prev.body[sectionIndex], next.body[sectionIndex];
      && after.(subsections := before.subsections) == before
      && |after.subsections| == |before.subsections|
      && (forall j :: 0 <= j < |before.subsections| && j != subsectionIndex ==> after.subsections[j] == before.subsections[j])
      && after.subsections[subsectionIndex] ==
           if field == Titulo then before.subsections[subsectionIndex].(titulo := value)
           else before.subsections[subsectionIndex].(conteudo := value)
    ensures Positional(prev.body) ==> Positional(next.body)
  {
    var newBody := prev.body;
    var section := newBody[sectionIndex];
    var sub := section.subsections[subsectionIndex];
    sub := if field == Titulo then sub.(titulo := value) else sub.(conteudo := value);
    section := section.(subsections := section.subsections[subsectionIndex := sub]);
    newBody := newBody[sectionIndex := section];
    next := prev.(body := newBody);
  }

  /** handleSectionTitleChange: sets the title of one editable-titled section; nothing else changes. */
  method HandleSectionTitleChange(prev: NpaData, sectionIndex: nat, value: string) returns (next: NpaData)
    requires sectionIndex < |prev.body| && prev.body[sectionIndex].tituloEditavel
    ensures next == prev.(body := prev.body[sectionIndex := prev.body[sectionIndex].(titulo := value)])
    ensures next.body[sectionIndex].titulo == value
    ensures Positional(prev.body) ==> Positional(next.body)
  {
    var newBody := prev.body;
    newBody := newBody[sectionIndex := newBody[sectionIndex].(titulo := value)];
    next := prev.(body := newBody);
  }

  // ---------------------------------------------------------------------
  // Signatures

  datatype Signer = PropostoPor | VistoPor | AprovadoPor
  datatype SignatureField = Nome | Cargo

  function Signatory(a: Assinaturas, signer: Signer): Assinatura
  {
    match signer
    case PropostoPor => a.propostoPor
    case VistoPor => a.vistoPor
    case AprovadoPor => a.aprovadoPor
  }

  function FieldOf(a: Assinatura, field: SignatureField): string
  {
    if field == Nome then a.nome else a.cargo
  }

  /**
   * handleSignatureChange: changes one field of one signatory; the other
   * field, the other two signatories and the rest of the document are kept.
   */
  function HandleSignatureChange(prev: NpaData, signer: Signer, field: SignatureField, value: string): (next: NpaData)
    ensures next == prev.(assinaturas := next.assinaturas)
    ensures FieldOf(Signatory(next.assinaturas, signer), field) == value
    ensures forall f :: f != field ==>
      FieldOf(Signatory(next.assinaturas, signer), f) == FieldOf(Signatory(prev.assinaturas, signer), f)
    ensures forall s :: s != signer ==> Signatory(next.assinaturas, s) == Signatory(prev.assinaturas, s)
  {
    var current := Signatory(prev.assinaturas, signer);
    var updated := if field == Nome then current.(nome := value) else current.(cargo := value);
    var a := prev.assinaturas;
    prev.(assinaturas :=
      match signer
      case PropostoPor => a.(propostoPor := updated)
      case VistoPor => a.(vistoPor := updated)
      case AprovadoPor => a.(aprovadoPor := updated))
  }

  /** Writing the previous value back undoes a signature change. */
  lemma HandleSignatureChangeUndo(prev: NpaData, signer: Signer, field: SignatureField, value: string)
    ensures var previous := FieldOf(Signatory(prev.assinaturas, signer), field);
      HandleSignatureChange(HandleSignatureChange(prev, signer, field, value), signer, field, previous) == prev
  {
  }

  // ---------------------------------------------------------------------
  // The document the editor starts from

  function InitialBody(): seq<Section>
  {
    [PreliminarySection(), GeneralSection(), FinalSection()]
  }

  function PreliminarySection(): Section
  {
    Section(1, "1", "DISPOSIÇÕES PRELIMINARES", false, false, [
      SubSection(11, "1.1", "FINALIDADE", FINALIDADE_TEXT, false, true, false, []),
      SubSection(12, "1.2", "CONCEITUAÇÃO", "", false, true, false, []),
      SubSection(13, "1.3", "ÂMBITO", AMBITO_TEXT, false, true, false, []),
      SubSection(14, "1.4", "DEFINIÇÕES", "", false, true, false, []),
      SubSection(15, "1.5", "RELACIONAMENTO", "", false, true, false, [])])
  }

  function GeneralSection(): Section
  {
    Section(2, "2", "DISPOSIÇÕES GERAIS", false, false, [
      SubSection(21, "2.1", "RESPONSABILIDADES", "", false, true, false, []),
      SubSection(22, "2.2", "COMPOSIÇÃO", "", false, true, false, [])])
  }

  /** The closing section; its last two subsections are numbered "3.4" and "3.5". */
  function FinalSection(): Section
  {
    Section(3, "3", "DISPOSIÇÕES FINAIS", false, false, [
      SubSection(31, "3.1", "VIGÊNCIA", VIGENCIA_TEXT, false, true, false, []),
      SubSection(32, "3.2", "ATUALIZAÇÃO", ATUALIZACAO_TEXT, false, true, false, []),
      SubSection(33, "3.4", "CASOS NÃO PREVISTOS", CASOS_NAO_PREVISTOS_TEXT, false, false, false, []),
      SubSection(34, "3.5", "PROPOSIÇÃO, VISTO E APROVAÇÃO", "", false, false, false, [])])
  }

  // Seed contents of the subsections that start with text.
  const FINALIDADE_TEXT := "A presente Norma Padrão de Ação (NPA) destina-se XXXXX"
  const AMBITO_TEXT := "Esta NPA, de observância obrigatória, aplica-se à XXX do PAMALS."
  const VIGENCIA_TEXT := "A presente NPA entrará em vigor a contar da data de publicação no Boletim Interno Ostensivo do GAP-LS, revogando a NPA XX-XX efetivada em XXXXXX"
  const ATUALIZACAO_TEXT := "Esta NPA deverá ser atualizada pela XX, quando necessário, para incluir novas atividades que venham a ser delegadas à XX ou excluir aquelas que venham a ser extintas ou transferidas para outros setores."
  const CASOS_NAO_PREVISTOS_TEXT := "Os casos não previstos serão resolvidos pelo Sr. Diretor do PAMALS."

  const EMPTY_PREVISAO := Structured(Previsao("", "", ""))

  const INITIAL_REFERENCIAS := "BRASIL. Comando da Aeronáutica. Diretoria de Material Aeronáutico e Bélico. Portaria DIRMAB n° 118/PLON, de 18 de dezembro de 2023. Aprova a reedição do Regimento Interno do Parque de Material Aeronáutico de Lagoa Santa = RICA 21-87. Boletim do Comando da Aeronáutica, Rio de Janeiro, RJ, n. 233, de 21 dez 2023.\n\nBRASIL. Comando da Aeronáutica. Comando-Geral do Pessoal. Portaria COMGEP n° 836/DLE, de 1º d maio de 2019. Aprova a edição da Norma de Sistema que dispõe sobre Correspondência e Atos Oficiais do Comando da Aeronáutica = NSCA 10-2. Boletim do Comando da Aeronáutica, Rio de Janeiro, RJ, n. 72, 02 mai 2019."

  /**
   * The seed document; its issue date (today, in the editor) is a parameter.
   * None of its three sections can be removed, its three annexes are the
   * fixed headcount table and qualification matrix and an editable flowchart,
   * and its roster and matrix start with three rows and none.
   */
  function InitialNpaData(dataExpedicao: string): (r: NpaData)
    ensures r.dataExpedicao == dataExpedicao
    ensures |r.body| == 3 && forall k :: 0 <= k < 3 ==> !r.body[k].removivel && r.body[k].numero == NatToString(k + 1)
    ensures |r.anexos| == 3 && !r.anexos[0].editavel && !r.anexos[1].editavel && r.anexos[2].editavel
    ensures |r.anexoA| == 3 && r.anexoB == []
  {
    NpaData(
      "NPA XX-XX/SETOR/2025",
      dataExpedicao,
      "2 ANOS",
      "Seção XXX (XXXX)",
      "B",
      [ Anexo(1, [65], "Tabela Efetivo Proposto", Efetivo, false),
        Anexo(2, [66], "Matriz de Qualificação", Qualificacao, false),
        Anexo(3, [67], "Fluxograma Bizagi", Fluxograma, true)],
      InitialBody(),
      INITIAL_REFERENCIAS,
      Assinaturas(
        Assinatura("FULANO DE TAL Ten Cel Int", "Chefe da ou do XXXX (XXX)"),
        Assinatura("JOSÉ ERASMO LEITE JUNIOR Cel Int", "Agente de Controle Interno"),
        Assinatura("CLAUDOMIRO FELTRAN JUNIOR Cel Av", "Diretor do PAMALS")),
      [ AnexoAItem(1, "SETOR-CH (Chefe)", EMPTY_PREVISAO, EMPTY_PREVISAO, Num(1)),
        AnexoAItem(2, "SETOR-ENC (Encarregado)", EMPTY_PREVISAO, EMPTY_PREVISAO, Num(1)),
        AnexoAItem(3, "SETOR-AUX (Auxiliar)", EMPTY_PREVISAO, EMPTY_PREVISAO, Num(1))],
      [])
  }

  /**
   * The seed is not positionally numbered: the closing section's subsections
   * jump from "3.2" to "3.4".
   */
  lemma InitialBodyNotPositional()
    ensures !Positional(InitialBody())
  {
    var subs := FinalSection().subsections;
    assert InitialBody()[2] == FinalSection();
    assert NatToString(3) == "3";
    assert SubNumber("3", 2) == "3.3";
    assert subs[2].numero == "3.4";
  }

  /**
   * Removing an identifier that no seed section carries renumbers the closing
   * section's last two subsections from "3.4", "3.5" to "3.3", "3.4".
   */
  lemma InitialBodyRenumberedByAbsentRemoval(sectionId: int)
    requires sectionId !in {1, 2, 3}
    ensures var r := RenumberBody(WithoutId(InitialBody(), SectionId, sectionId));
      && |r| == 3 && |r[2].subsections| == 4
      && r[2].subsections[2].numero == "3.3"
      && r[2].subsections[3].numero == "3.4"
      && r != InitialBody()
  {
    var body := InitialBody();
    RemoveAbsentSection(body, sectionId);
    InitialBodyNotPositional();
    var r := RenumberBody(body);
    assert r[2] == RenumberSection(FinalSection(), NatToString(3));
    assert NatToString(3) == "3";
    assert SubNumber("3", 2) == "3.3";
    assert SubNumber("3", 3) == "3.4";
  }
}
