/** The manga page that hosts the reader: it opens the reader only on a chapter that
    has pages and closes it by clearing the selection. */
module Detail {
  import opened Models
  import Viewer

  /** `capitulo.paginas?.length` is truthy: the chapter has a page list with at least
      one page. */
  predicate HasPages(capitulo: Capitulo) {
    capitulo.paginas.Some? && |capitulo.paginas.value| > 0
  }

  class MangaDetail {
    var selectedCapitulo: Option<Capitulo>
    var isViewing: bool

    /** The reader is open exactly when a chapter is selected, and a selected chapter
        always has pages. */
    ghost predicate Valid()
      reads this
    {
      && (isViewing <==> selectedCapitulo.Some?)
      && (selectedCapitulo.Some? ==> HasPages(selectedCapitulo.value))
    }

    constructor ()
      ensures Valid() && selectedCapitulo == None && !isViewing
    {
      selectedCapitulo := None;
      isViewing := false;
    }

    method VisualizarCapitulo(capitulo: Capitulo)
      requires Valid()
      modifies this
      ensures Valid()
      ensures HasPages(capitulo) ==> selectedCapitulo == Some(capitulo) && isViewing
      ensures !HasPages(capitulo) ==>
        selectedCapitulo == old(selectedCapitulo) && isViewing == old(isViewing)
    {
      if !HasPages(capitulo) {
        return;
      }
      selectedCapitulo := Some(capitulo);
      isViewing := true;
    }

    method FecharVisualizacao()
      requires Valid()
      modifies this
      ensures Valid()
      ensures selectedCapitulo == None && !isViewing
    {
      selectedCapitulo := None;
      isViewing := false;
    }

    /** What a reader opened on the selected chapter shows first: the image of the
        chapter's first page, not the empty fallback of `currentPageUrl`. */
    function FirstPageShown(): (url: string)
      reads this
      requires Valid() && isViewing
      ensures url == selectedCapitulo.value.paginas.value[0].imageUrl
      ensures url == Viewer.PageUrl(selectedCapitulo.value.paginas, 0)
    {
      Viewer.PageUrl(selectedCapitulo.value.paginas, 0)
    }
  }
}
