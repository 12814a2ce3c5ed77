/** The manga service's normalisation of stored documents: every chapter gets a page
    list and a publication date, so the pages that show chapters can rely on both. */
module Mangas {
  import opened Models

  /** A chapter as the service hands it out: its page list when it has one and the
      empty list otherwise; its date when it has one and the current time otherwise. */
  function ProcessChapter(cap: Capitulo, now: Instant): (r: Capitulo)
    ensures r.paginas.Some? && r.dataPublicacao.Some?
    ensures cap.paginas.Some? ==> r.paginas == cap.paginas
    ensures cap.paginas.None? ==> r.paginas == Some([])
    ensures cap.dataPublicacao.Some? ==> r.dataPublicacao == cap.dataPublicacao
    ensures cap.dataPublicacao.None? ==> r.dataPublicacao == Some(now)
    ensures r.numero == cap.numero && r.titulo == cap.titulo && r.url == cap.url
  {
    cap.(paginas := Some(if cap.paginas.Some? then cap.paginas.value else []),
         dataPublicacao := if cap.dataPublicacao.Some? then cap.dataPublicacao else Some(now))
  }

  /** Every chapter has a page list and a date. */
  predicate Normalised(manga: Manga) {
    forall i :: 0 <= i < |manga.capitulos| ==>
      manga.capitulos[i].paginas.Some? && manga.capitulos[i].dataPublicacao.Some?
  }

  /** `processManga`: the same manga, its chapters normalised one for one. */
  function ProcessManga(manga: Manga, now: Instant): (r: Manga)
    ensures r.(capitulos := manga.capitulos) == manga
    ensures |r.capitulos| == |manga.capitulos|
    ensures forall i :: 0 <= i < |r.capitulos| ==> r.capitulos[i] == ProcessChapter(manga.capitulos[i], now)
    ensures Normalised(r)
  {
    manga.(capitulos := seq(|manga.capitulos|, i requires 0 <= i < |manga.capitulos| =>
                              ProcessChapter(manga.capitulos[i], now)))
  }

  /** A normalised chapter is left as it is, whatever the time. */
  lemma ProcessChapterKeepsNormalised(cap: Capitulo, now: Instant)
    requires cap.paginas.Some? && cap.dataPublicacao.Some?
    ensures ProcessChapter(cap, now) == cap
  {
  }

  /** Normalising twice is normalising once, even at a later time. */
  lemma ProcessMangaIdempotent(manga: Manga, now: Instant, later: Instant)
    ensures ProcessManga(ProcessManga(manga, now), later) == ProcessManga(manga, now)
  {
    var once := ProcessManga(manga, now);
    var twice := ProcessManga(once, later);
    forall i | 0 <= i < |once.capitulos|
      ensures twice.capitulos[i] == once.capitulos[i]
    {
      ProcessChapterKeepsNormalised(once.capitulos[i], later);
    }
    assert twice.capitulos == once.capitulos;
  }

  /** `processMangas`: every manga processed, in order. */
  function ProcessMangas(mangas: seq<Manga>, now: Instant): (r: seq<Manga>)
    ensures |r| == |mangas|
    ensures forall i :: 0 <= i < |r| ==> r[i] == ProcessManga(mangas[i], now)
  {
    if mangas == [] then [] else [ProcessManga(mangas[0], now)] + ProcessMangas(mangas[1..], now)
  }

  /** Processing a list piece by piece is processing it whole. */
  lemma {:induction false} ProcessMangasAppend(a: seq<Manga>, b: seq<Manga>, now: Instant)
    ensures ProcessMangas(a + b, now) == ProcessMangas(a, now) + ProcessMangas(b, now)
  {
    if a == [] {
      assert a + b == b;
    } else {
      assert (a + b)[0] == a[0] && (a + b)[1..] == a[1..] + b;
      ProcessMangasAppend(a[1..], b, now);
    }
  }

  /** The mapping in `getMangaById`: no document gives `null`, a document gives its
      processed form. */
  function MangaFromDocument(document: Option<Manga>, now: Instant): (r: Option<Manga>)
    ensures r.None? <==> document.None?
    ensures r.Some? ==> r.value == ProcessManga(document.value, now) && Normalised(r.value)
  {
    match document
    case None => None
    case Some(manga) => Some(ProcessManga(manga, now))
  }
}
