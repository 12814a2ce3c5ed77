/** Entities of the catalogue: a manga is an ordered list of chapters, a chapter an
    ordered list of pages; tags label mangas. Optional fields of the stored documents
    are `Option`s; dates are opaque instants. */
module Models {

  datatype Option<+T> = None | Some(value: T)

  /** An opaque point in time (a `Date` or a Firestore `Timestamp`). */
  datatype Instant = Instant(millis: int)

  datatype Pagina = Pagina(numero: int, imageUrl: string)

  /** A chapter. `paginas` is `None` when the stored document has no page list
      (or something that is not an array there). */
  datatype Capitulo = Capitulo(
    numero: int,
    titulo: string,
    dataPublicacao: Option<Instant>,
    url: string,
    paginas: Option<seq<Pagina>>)

  datatype AnimeStatus = EmAndamento | Finalizado

  datatype AnimeInfo = AnimeInfo(
    titulo: Option<string>,
    temporadas: Option<int>,
    episodios: Option<int>,
    status: Option<AnimeStatus>)

  /** A manga. `animeAdaptacao` is `None` for an absent, `undefined` or `null` value. */
  datatype Manga = Manga(
    id: Option<string>,
    titulo: string,
    descricao: string,
    autor: string,
    generos: seq<string>,
    tagIds: Option<seq<string>>,
    imageUrl: string,
    capitulos: seq<Capitulo>,
    temAnime: Option<bool>,
    animeAdaptacao: Option<AnimeInfo>)

  datatype Tag = Tag(
    id: Option<string>,
    nome: string,
    descricao: Option<string>,
    dataCriacao: Instant,
    usageCount: int)

  /** `Partial<Tag>`: every field may be missing. */
  datatype TagDraft = TagDraft(
    id: Option<string>,
    nome: Option<string>,
    descricao: Option<string>,
    dataCriacao: Option<Instant>,
    usageCount: Option<int>)

  datatype TagSelection = TagSelection(tag: Tag, selected: bool)

  /** Outcome of an asynchronous backend write: it resolves or it rejects. */
  datatype Outcome = Done | Rejected
}
