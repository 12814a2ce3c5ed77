/** The manga administration form: the default form, the genre text field, the
    create-or-update dispatch, the edit transition and the chapter list that the
    form grows and shrinks. */
module HomePage {
  import opened Models
  import opened Text

  /** The default `animeAdaptacao` of a new form. */
  function DefaultAnime(): (a: AnimeInfo)
    ensures a.titulo == Some("") && a.temporadas == Some(0) && a.episodios == Some(0)
    ensures a.status == Some(EmAndamento)
  {
    AnimeInfo(Some(""), Some(0), Some(0), Some(EmAndamento))
  }

  /** The empty form. The literal leaves out `id`, `tagIds` and `temAnime`, so they
      are absent. */
  function DefaultManga(): (m: Manga)
    ensures m.id.None? && m.tagIds.None? && m.temAnime.None?
    ensures m.titulo == "" && m.descricao == "" && m.autor == "" && m.imageUrl == ""
    ensures m.generos == [] && m.capitulos == []
    ensures m.animeAdaptacao == Some(DefaultAnime())
  {
    Manga(None, "", "", "", [], None, "", [], None, Some(DefaultAnime()))
  }

  /** `generosInput.split(',').map(g => g.trim())`: one genre per comma-separated
      piece, one more than there are commas, each without a comma and without
      surrounding white space. */
  function GenresFromInput(s: string): (gs: seq<string>)
    ensures |gs| == Count(s, ',') + 1
    ensures forall i :: 0 <= i < |gs| ==> ',' !in gs[i]
    ensures forall i :: 0 <= i < |gs| ==> Tight(gs[i])
    ensures forall i :: 0 <= i < |gs| ==> (gs[i] == [] <==> Blank(Split(s, ',')[i]))
  {
    var pieces := Split(s, ',');
    TrimmedPiecesHaveNoComma(pieces);
    seq(|pieces|, i requires 0 <= i < |pieces| => Trim(pieces[i]))
  }

  /** Each genre is the trimmed comma-separated piece at the same position. */
  lemma GenresAreTrimmedPieces(s: string)
    ensures |GenresFromInput(s)| == |Split(s, ',')|
    ensures forall i :: 0 <= i < |Split(s, ',')| ==> GenresFromInput(s)[i] == Trim(Split(s, ',')[i])
  {
  }

  lemma TrimmedPiecesHaveNoComma(pieces: seq<string>)
    requires forall i :: 0 <= i < |pieces| ==> ',' !in pieces[i]
    ensures forall i :: 0 <= i < |pieces| ==> ',' !in Trim(pieces[i])
  {
    forall i | 0 <= i < |pieces| ensures ',' !in Trim(pieces[i]) {
      TrimKeepsOut(pieces[i], ',');
    }
  }

  /** A genre as the form writes it back: no comma inside, no white space around. */
  predicate Tidy(g: string) {
    ',' !in g && Tight(g)
  }

  /** The text `editarManga` puts in the genre field: `generos.join(', ')`. */
  function GenresText(gs: seq<string>): string {
    Join(gs, ", ")
  }

  /** Editing a manga and saving it unchanged gives back its genres, as long as there
      is at least one genre and every genre is tidy. */
  lemma GenresRoundTrip(gs: seq<string>)
    requires |gs| >= 1
    requires forall i :: 0 <= i < |gs| ==> Tidy(gs[i])
    ensures GenresFromInput(GenresText(gs)) == gs
  {
    assert ", " == [','] + " ";
    SplitJoinPadded(gs, ',', " ");
    var pieces := Split(GenresText(gs), ',');
    TrimmedPieces(gs, pieces);
    var r := GenresFromInput(GenresText(gs));
    assert forall i :: 0 <= i < |r| ==> r[i] == Trim(pieces[i]);
  }

  /** The pieces of a joined genre list, each trimmed, are the genres. */
  lemma TrimmedPieces(gs: seq<string>, pieces: seq<string>)
    requires |gs| >= 1
    requires forall i :: 0 <= i < |gs| ==> Tidy(gs[i])
    requires pieces == [gs[0]] + Padded(" ", gs[1..])
    ensures |pieces| == |gs|
    ensures forall i :: 0 <= i < |pieces| ==> Trim(pieces[i]) == gs[i]
  {
    forall i | 0 <= i < |pieces|
      ensures Trim(pieces[i]) == gs[i]
    {
      if i > 0 {
        assert pieces[i] == [' '] + gs[i];
        TrimLeadingSpace(' ', gs[i]);
      }
    }
  }

  /** A genre field left empty still gives one genre, the empty one; so does saving a
      manga that had no genres. */
  lemma EmptyInputGivesOneGenre()
    ensures GenresFromInput("") == [""]
    ensures GenresFromInput(GenresText([])) == [""]
  {
    assert Split("", ',') == [""];
  }

  /** The copy `editarManga` loads into the form: the listed fields, `id`, `tagIds`
      and `temAnime` left out, and the default adaptation when there is none. */
  function EditCopy(manga: Manga): (m: Manga)
    ensures m.id.None? && m.tagIds.None? && m.temAnime.None?
    ensures m.titulo == manga.titulo && m.descricao == manga.descricao
    ensures m.autor == manga.autor && m.imageUrl == manga.imageUrl
    ensures m.generos == manga.generos && m.capitulos == manga.capitulos
    ensures manga.animeAdaptacao.Some? ==> m.animeAdaptacao == manga.animeAdaptacao
    ensures manga.animeAdaptacao.None? ==> m.animeAdaptacao == Some(DefaultAnime())
  {
    Manga(None, manga.titulo, manga.descricao, manga.autor, manga.generos, None,
          manga.imageUrl, manga.capitulos, None,
          if manga.animeAdaptacao.Some? then manga.animeAdaptacao else Some(DefaultAnime()))
  }

  /** The chapter `adicionarCapitulo` creates when the form holds `count` chapters.
      Its literal has no `paginas`. */
  function NewChapter(count: nat, now: Instant): (c: Capitulo)
    ensures c.numero == count + 1 && c.titulo == "" && c.url == ""
    ensures c.dataPublicacao == Some(now) && c.paginas.None?
  {
    Capitulo(count + 1, "", Some(now), "", None)
  }

  /** `capitulos.push(novoCapitulo)`: one chapter more, numbered after the old count,
      the existing chapters untouched and in place. */
  function WithChapterAdded(caps: seq<Capitulo>, now: Instant): (r: seq<Capitulo>)
    ensures |r| == |caps| + 1
    ensures r[..|caps|] == caps
    ensures r[|caps|] == NewChapter(|caps|, now)
  {
    caps + [NewChapter(|caps|, now)]
  }

  /** Where `splice(index, 1)` starts: a negative index counts from the end, and the
      start is clamped to the list. */
  function SpliceStart(len: nat, index: int): (k: nat)
    ensures k <= len
    ensures 0 <= index <= len ==> k == index
    ensures index < 0 && 0 <= len + index ==> k == len + index
    ensures len + index < 0 ==> k == 0
    ensures index > len ==> k == len
  {
    if index < 0 then (if len + index < 0 then 0 else len + index)
    else if index > len then len else index
  }

  /** `capitulos.splice(index, 1)`: at most one chapter leaves, the others keep their
      order and their numbers. */
  function Spliced(caps: seq<Capitulo>, index: int): (r: seq<Capitulo>)
    ensures SpliceStart(|caps|, index) < |caps| ==>
      && |r| == |caps| - 1
      && multiset(r) + multiset{caps[SpliceStart(|caps|, index)]} == multiset(caps)
    ensures SpliceStart(|caps|, index) == |caps| ==> r == caps
    ensures forall j :: 0 <= j < SpliceStart(|caps|, index) && j < |r| ==> r[j] == caps[j]
    ensures forall j :: SpliceStart(|caps|, index) <= j < |r| ==> r[j] == caps[j + 1]
  {
    var k := SpliceStart(|caps|, index);
    if k < |caps| then
      assert caps == caps[..k] + [caps[k]] + caps[k + 1..];
      caps[..k] + caps[k + 1..]
    else caps
  }

  /** Removing a chapter at an index inside the list removes exactly that one. */
  lemma RemoveInRange(caps: seq<Capitulo>, index: int)
    requires 0 <= index < |caps|
    ensures Spliced(caps, index) == caps[..index] + caps[index + 1..]
  {
    var r := Spliced(caps, index);
    assert |r| == |caps[..index] + caps[index + 1..]|;
    forall j | 0 <= j < |r|
      ensures r[j] == (caps[..index] + caps[index + 1..])[j]
    {
    }
  }

  /** Adding a chapter and then removing the last one gives the list back. */
  lemma AddThenRemoveLast(caps: seq<Capitulo>, now: Instant)
    ensures Spliced(WithChapterAdded(caps, now), |caps|) == caps
    ensures Spliced(WithChapterAdded(caps, now), -1) == caps
  {
    var added := WithChapterAdded(caps, now);
    RemoveInRange(added, |caps|);
    assert added[..|caps|] == caps;
    assert added[|caps| + 1..] == [];
    assert SpliceStart(|added|, -1) == |caps|;
  }

  /** A write sent to the `mangas` collection. */
  datatype MangaWrite =
    | UpdateManga(id: string, data: Manga)
    | AddManga(data: Manga)
    | DeleteManga(id: string)

  /** What the save button submits: the form with its genres read from the genre
      field. */
  function Submitted(form: Manga, generosInput: string): (m: Manga)
    ensures m.generos == GenresFromInput(generosInput)
    ensures m.(generos := form.generos) == form
  {
    form.(generos := GenresFromInput(generosInput))
  }

  /** The write `registrarManga` sends: an update of the edited document, `id`
      removed from the data, exactly when editing with an id; an insertion otherwise. */
  function SaveWrite(form: Manga, generosInput: string, isEditing: bool, editingId: Option<string>): (w: MangaWrite)
    ensures isEditing && editingId.Some? <==> w.UpdateManga?
    ensures w.UpdateManga? ==>
      w.id == editingId.value && w.data == Submitted(form, generosInput).(id := None)
    ensures w.AddManga? ==> w.data == Submitted(form, generosInput)
    ensures !w.DeleteManga?
  {
    if isEditing && editingId.Some? then UpdateManga(editingId.value, Submitted(form, generosInput).(id := None))
    else AddManga(Submitted(form, generosInput))
  }

  class Home {
    var novoManga: Manga
    var generosInput: string
    var isEditing: bool
    var editingId: Option<string>
    /** The writes sent to the database, oldest first. */
    ghost var effects: seq<MangaWrite>

    /** Nothing is being edited unless editing mode is on. */
    ghost predicate Valid()
      reads this
    {
      !isEditing ==> editingId.None?
    }

    /** The initial state, which is also the state `resetForm` restores. */
    ghost predicate Fresh()
      reads this
    {
      novoManga == DefaultManga() && generosInput == "" && !isEditing && editingId.None?
    }

    constructor ()
      ensures Valid() && Fresh() && effects == []
    {
      novoManga := DefaultManga();
      generosInput := "";
      isEditing := false;
      editingId := None;
      effects := [];
    }

    method ResetForm()
      modifies this`novoManga, this`generosInput, this`isEditing, this`editingId
      ensures Valid() && Fresh()
    {
      novoManga := DefaultManga();
      generosInput := "";
      isEditing := false;
      editingId := None;
    }

    /** `registrarManga`; `write` says whether the database write resolves. The genres
        are read into the form before the write, so they stay even when it fails. */
    method RegistrarManga(write: Outcome) returns (r: Outcome)
      requires Valid()
      modifies this
      ensures Valid() && r == write
      ensures write.Done? ==>
        && effects == old(effects) + [SaveWrite(old(novoManga), old(generosInput), old(isEditing), old(editingId))]
        && Fresh()
      ensures write.Rejected? ==>
        && effects == old(effects)
        && novoManga == Submitted(old(novoManga), old(generosInput))
        && generosInput == old(generosInput)
        && isEditing == old(isEditing) && editingId == old(editingId)
    {
      novoManga := novoManga.(generos := GenresFromInput(generosInput));
      if write.Rejected? {
        return Rejected;
      }
      if isEditing && editingId.Some? {
        effects := effects + [UpdateManga(editingId.value, novoManga.(id := None))];
      } else {
        effects := effects + [AddManga(novoManga)];
      }
      ResetForm();
      r := Done;
    }

    /** `editarManga`: load a copy of the manga and its genres as text. */
    method EditarManga(manga: Manga)
      modifies this`novoManga, this`generosInput, this`isEditing, this`editingId
      ensures isEditing && editingId == manga.id
      ensures novoManga == EditCopy(manga)
      ensures generosInput == GenresText(manga.generos)
    {
      isEditing := true;
      editingId := manga.id;
      novoManga := EditCopy(manga);
      generosInput := Join(manga.generos, ", ");
    }

    /** `excluirManga`: nothing happens unless the user confirms. */
    method ExcluirManga(id: string, confirmed: bool, write: Outcome)
      modifies this`effects
      ensures confirmed && write.Done? ==> effects == old(effects) + [DeleteManga(id)]
      ensures !(confirmed && write.Done?) ==> effects == old(effects)
    {
      if confirmed && write.Done? {
        effects := effects + [DeleteManga(id)];
      }
    }

    method AdicionarCapitulo(now: Instant)
      modifies this`novoManga
      ensures novoManga == old(novoManga).(capitulos := WithChapterAdded(old(novoManga.capitulos), now))
    {
      var novoCapitulo := NewChapter(|novoManga.capitulos|, now);
      novoManga := novoManga.(capitulos := novoManga.capitulos + [novoCapitulo]);
    }

    method RemoverCapitulo(index: int)
      modifies this`novoManga
      ensures novoManga == old(novoManga).(capitulos := Spliced(old(novoManga.capitulos), index))
    {
      novoManga := novoManga.(capitulos := Spliced(novoManga.capitulos, index));
    }

    /** `cancelarEdicao`: the same transition as `resetForm`. */
    method CancelarEdicao()
      modifies this`novoManga, this`generosInput, this`isEditing, this`editingId
      ensures Valid() && Fresh()
    {
      ResetForm();
    }
  }
}
