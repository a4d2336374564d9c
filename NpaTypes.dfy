/**
 * The document model of a "Norma Padrão de Ação": the record the editor keeps
 * in memory and hands to the exporter.
 *
 * Optional boolean flags of the original records (an absent flag reads as
 * false) are plain booleans here.
 */
module NpaTypes {
  import opened JsRuntime

  datatype AnexoTipo = Efetivo | Qualificacao | Fluxograma | Custom

  /** An annex descriptor; its letter is a UTF-16 string, see Annexes. */
  datatype Anexo = Anexo(id: int, letra: seq<CodeUnit>, titulo: string, tipo: AnexoTipo, editavel: bool)

  /** An item of a subsection ("1.4.1"). */
  datatype SubSubSection = SubSubSection(id: int, numero: string, titulo: string, conteudo: string, editavel: bool)

  datatype SubSection = SubSection(
    id: int,
    numero: string,
    titulo: string,
    conteudo: string,
    tituloEditavel: bool,
    conteudoEditavel: bool,
    removivel: bool,
    subSubsections: seq<SubSubSection>)

  datatype Section = Section(
    id: int,
    numero: string,
    titulo: string,
    tituloEditavel: bool,
    removivel: bool,
    subsections: seq<SubSection>)

  datatype Assinatura = Assinatura(nome: string, cargo: string)

  /** The three fixed signatories. */
  datatype Assinaturas = Assinaturas(propostoPor: Assinatura, vistoPor: Assinatura, aprovadoPor: Assinatura)

  datatype Previsao = Previsao(postoGrad: string, quadro: string, especialidade: string)

  /**
   * A prediction cell of the personnel roster. It is declared as a record, but
   * the roster editor writes the raw text of its input into it, so once edited
   * it holds a string.
   */
  datatype PrevisaoCell = Structured(previsao: Previsao) | Typed(text: string)

  /** A row of the personnel roster (annex A). */
  datatype AnexoAItem = AnexoAItem(
    id: int,
    funcao: string,
    previsaoPrincipal: PrevisaoCell,
    previsaoAlternativa: PrevisaoCell,
    efetivoProposto: JsNumber)

  /** A row of the qualification matrix (annex B); the three role flags hold "0" or "1". */
  datatype AnexoBItem = AnexoBItem(
    id: int,
    qualificacao: string,
    sigla: string,
    legislacao: string,
    prioridade: string,
    setorCh: string,
    setorEnc: string,
    setorAux: string)

  datatype NpaData = NpaData(
    numero: string,
    dataExpedicao: string,
    validade: string,
    assunto: string,
    distribuicao: string,
    anexos: seq<Anexo>,
    body: seq<Section>,
    referencias: string,
    assinaturas: Assinaturas,
    anexoA: seq<AnexoAItem>,
    anexoB: seq<AnexoBItem>)

  // Identity projections, used to filter lists by id.
  function SectionId(s: Section): int { s.id }
  function SubSectionId(s: SubSection): int { s.id }
  function AnexoId(a: Anexo): int { a.id }
  function AnexoBId(r: AnexoBItem): int { r.id }
}
