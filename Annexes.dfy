/**
 * The annex list of the identification form (TabIdentificacao.tsx): adding an
 * annex after the last letter, renaming one, and removing one, which gives
 * the survivors consecutive letters again from "A".
 *
 * Letters are UTF-16 strings and the form derives them with charCodeAt and
 * String.fromCharCode, so they are modelled on code units.
 */
module Annexes {
  import opened JsRuntime
  import opened NpaTypes
  import Outline

  const AT_SIGN: CodeUnit := 64
  const LETTER_A: CodeUnit := 65

  /** The letter of the annex at position i of a well-lettered list: 'A' + i, as a UTF-16 unit. */
  function LetterAt(i: nat): seq<CodeUnit>
  {
    FromCharCode(Num(LETTER_A + i))
  }

  /** Annex i carries letter 'A' + i. */
  predicate Lettered(anexos: seq<Anexo>)
  {
    forall i :: 0 <= i < |anexos| ==> anexos[i].letra == LetterAt(i)
  }

  /**
   * The letter addAnexo picks: one past the first unit of the last annex's
   * letter, or "A" (one past "@") for an empty list. An empty last letter reads
   * as NaN, which String.fromCharCode turns into the unit 0.
   */
  function NextLetter(anexos: seq<Anexo>): (r: seq<CodeUnit>)
    ensures |r| == 1
    ensures |anexos| == 0 ==> r == [LETTER_A]
    ensures |anexos| > 0 && |anexos[|anexos| - 1].letra| > 0 ==>
      r[0] == (anexos[|anexos| - 1].letra[0] as int + 1) % 0x1_0000
    ensures |anexos| > 0 && |anexos[|anexos| - 1].letra| == 0 ==> r == [0]
  {
    var lastLetra := if |anexos| > 0 then anexos[|anexos| - 1].letra else [AT_SIGN];
    FromCharCode(Succ(CharCodeAt0(lastLetra)))
  }

  /** addAnexo: appends an empty, editable custom annex with the next letter. */
  function AddAnexo(anexos: seq<Anexo>, id: int): (r: seq<Anexo>)
    ensures |r| == |anexos| + 1 && r[..|anexos|] == anexos
    ensures r[|anexos|] == Anexo(id, NextLetter(anexos), "", Custom, true)
  {
    anexos + [Anexo(id, NextLetter(anexos), "", Custom, true)]
  }

  lemma SuccMod(x: int)
    ensures (x % 0x1_0000 + 1) % 0x1_0000 == (x + 1) % 0x1_0000
  {
  }

  /** Adding to a well-lettered list gives the new annex the next letter in sequence. */
  lemma AddAnexoKeepsLettered(anexos: seq<Anexo>, id: int)
    requires Lettered(anexos)
    ensures Lettered(AddAnexo(anexos, id))
    ensures AddAnexo(anexos, id)[|anexos|].letra == LetterAt(|anexos|)
  {
    var n := |anexos|;
    var r := AddAnexo(anexos, id);
    if n > 0 {
      assert anexos[n - 1].letra == [(LETTER_A + n - 1) % 0x1_0000];
      SuccMod(LETTER_A + n - 1);
    }
    forall i | 0 <= i < |r| ensures r[i].letra == LetterAt(i) {
      if i < n {
        assert r[i] == r[..n][i] == anexos[i];
      }
    }
  }

  /** The 27th annex added in sequence gets '[', the unit after 'Z'. */
  lemma AddAnexoAfterZ(anexos: seq<Anexo>, id: int)
    requires Lettered(anexos) && |anexos| == 26
    ensures anexos[25].letra == [90]
    ensures AddAnexo(anexos, id)[26].letra == [91]
  {
    AddAnexoKeepsLettered(anexos, id);
  }

  /** The relettering pass of removeAnexo: annex i gets 'A' + i, everything else is kept. */
  function Reletter(anexos: seq<Anexo>): (r: seq<Anexo>)
    ensures Lettered(r)
    ensures |r| == |anexos|
    ensures forall i :: 0 <= i < |r| ==> r[i].(letra := anexos[i].letra) == anexos[i]
  {
    seq(|anexos|, i requires 0 <= i < |anexos| => anexos[i].(letra := LetterAt(i)))
  }

  /** Every annex carrying `id` is editable: only those offer a remove button and an editable title. */
  predicate EditableWhereId(anexos: seq<Anexo>, id: int)
  {
    forall i :: 0 <= i < |anexos| && anexos[i].id == id ==> anexos[i].editavel
  }

  /**
   * removeAnexo: drops the annexes carrying `id` and reletters the rest from
   * "A"; apart from letters the survivors are the other annexes, in order.
   */
  function RemoveAnexo(anexos: seq<Anexo>, id: int): (r: seq<Anexo>)
    requires EditableWhereId(anexos, id)
    ensures Lettered(r)
    ensures |r| == |WithoutId(anexos, AnexoId, id)|
    ensures forall i :: 0 <= i < |r| ==>
      r[i].(letra := WithoutId(anexos, AnexoId, id)[i].letra) == WithoutId(anexos, AnexoId, id)[i]
    ensures forall i :: 0 <= i < |r| ==> r[i].id != id
  {
    Reletter(WithoutId(anexos, AnexoId, id))
  }

  /** Relettering a well-lettered list changes nothing, and only such lists are left unchanged. */
  lemma ReletterFixedIffLettered(anexos: seq<Anexo>)
    ensures Reletter(anexos) == anexos <==> Lettered(anexos)
  {
    if Reletter(anexos) == anexos {
      forall i | 0 <= i < |anexos| ensures anexos[i].letra == LetterAt(i) {
        assert Reletter(anexos)[i].letra == LetterAt(i);
      }
    }
  }

  /** Removing an identifier no annex carries leaves a well-lettered list unchanged. */
  lemma RemoveAbsentAnexo(anexos: seq<Anexo>, id: int)
    requires forall i :: 0 <= i < |anexos| ==> anexos[i].id != id
    ensures RemoveAnexo(anexos, id) == anexos <==> Lettered(anexos)
  {
    WithoutAbsentId(anexos, AnexoId, id);
    ReletterFixedIffLettered(anexos);
  }

  /** On a well-lettered list, removing a freshly added annex undoes the addition. */
  lemma RemoveAddedAnexo(anexos: seq<Anexo>, id: int)
    requires Lettered(anexos)
    requires forall i :: 0 <= i < |anexos| ==> anexos[i].id != id
    ensures EditableWhereId(AddAnexo(anexos, id), id)
    ensures RemoveAnexo(AddAnexo(anexos, id), id) == anexos
  {
    var r := AddAnexo(anexos, id);
    var added := r[|anexos|];
    assert r == anexos + [added];
    WithoutFreshLast(anexos, added, AnexoId, id);
    ReletterFixedIffLettered(anexos);
  }

  /** The fixed annexes (effective table, qualification matrix) survive every removal the form allows. */
  lemma RemoveAnexoKeepsFixed(anexos: seq<Anexo>, id: int, k: nat) returns (m: nat)
    requires EditableWhereId(anexos, id)
    requires k < |anexos| && !anexos[k].editavel
    ensures m < |RemoveAnexo(anexos, id)|
    ensures RemoveAnexo(anexos, id)[m] == anexos[k].(letra := LetterAt(m))
  {
    var kept := WithoutId(anexos, AnexoId, id);
    WithoutIdMembers(anexos, AnexoId, id);
    assert anexos[k] in kept;
    m :| 0 <= m < |kept| && kept[m] == anexos[k];
  }

  /**
   * updateAnexoTitle: renames every annex carrying `id`; the input is read-only
   * for non-editable annexes, so all of them are editable.
   */
  function UpdateAnexoTitle(anexos: seq<Anexo>, id: int, newTitle: string): (r: seq<Anexo>)
    requires EditableWhereId(anexos, id)
    ensures |r| == |anexos|
    ensures forall i :: 0 <= i < |r| && anexos[i].id == id ==> r[i] == anexos[i].(titulo := newTitle)
    ensures forall i :: 0 <= i < |r| && anexos[i].id != id ==> r[i] == anexos[i]
  {
    seq(|anexos|, i requires 0 <= i < |anexos| =>
      if anexos[i].id == id then anexos[i].(titulo := newTitle) else anexos[i])
  }

  /**
   * Renaming keeps letters, identifiers and editability, and renaming twice
   * to the same title is renaming once.
   */
  lemma UpdateAnexoTitleKeepsLetters(anexos: seq<Anexo>, id: int, newTitle: string)
    requires EditableWhereId(anexos, id)
    ensures Lettered(anexos) ==> Lettered(UpdateAnexoTitle(anexos, id, newTitle))
    ensures EditableWhereId(UpdateAnexoTitle(anexos, id, newTitle), id)
    ensures UpdateAnexoTitle(UpdateAnexoTitle(anexos, id, newTitle), id, newTitle) ==
      UpdateAnexoTitle(anexos, id, newTitle)
  {
    var once := UpdateAnexoTitle(anexos, id, newTitle);
    assert |UpdateAnexoTitle(once, id, newTitle)| == |once|;
  }

  /** The seed annexes A, B, C are lettered in sequence. */
  lemma InitialAnnexesLettered(dataExpedicao: string)
    ensures Lettered(Outline.InitialNpaData(dataExpedicao).anexos)
  {
    var anexos := Outline.InitialNpaData(dataExpedicao).anexos;
    assert LetterAt(0) == [65] && LetterAt(1) == [66] && LetterAt(2) == [67];
    assert anexos[0].letra == [65] && anexos[1].letra == [66] && anexos[2].letra == [67];
  }
}
