/** The chapter reader: a current page index over a chapter's page list, moved by
    next / previous / go-to with bounds guards. */
module Viewer {
  import opened Models

  /** `paginas?.length || 0`. */
  function PageCount(paginas: Option<seq<Pagina>>): (n: nat)
    ensures paginas.None? ==> n == 0
    ensures paginas.Some? ==> n == |paginas.value|
  {
    match paginas
    case None => 0
    case Some(ps) => |ps|
  }

  /** Where the index may be: never negative, and inside the page list unless it is
      the initial 0 of a chapter without pages. */
  predicate InRange(paginas: Option<seq<Pagina>>, current: int) {
    0 <= current && (current == 0 || current < PageCount(paginas))
  }

  /** The URL shown for index `current`: the page's image when that page exists,
      the empty string otherwise. */
  function PageUrl(paginas: Option<seq<Pagina>>, current: int): (url: string)
    ensures 0 <= current < PageCount(paginas) ==> url == paginas.value[current].imageUrl
    ensures !(0 <= current < PageCount(paginas)) ==> url == ""
  {
    if paginas.Some? && 0 <= current < |paginas.value| then paginas.value[current].imageUrl else ""
  }

  /** One navigation request. */
  datatype Nav = Next | Previous | GoTo(index: int)

  /** The index after one request; the request is ignored when its guard fails. */
  function Step(paginas: Option<seq<Pagina>>, current: int, nav: Nav): (r: int)
    ensures 0 <= current ==> 0 <= r
    ensures InRange(paginas, current) ==> InRange(paginas, r)
    ensures nav.Next? ==>
      r == (if paginas.Some? && current < PageCount(paginas) - 1 then current + 1 else current)
    ensures nav.Previous? ==> r == (if current > 0 then current - 1 else current)
    ensures nav.GoTo? ==> r == (if 0 <= nav.index < PageCount(paginas) then nav.index else current)
  {
    match nav
    case Next =>
      if paginas.Some? && current < |paginas.value| - 1 then current + 1 else current
    case Previous =>
      if current > 0 then current - 1 else current
    case GoTo(index) =>
      if paginas.Some? && index >= 0 && index < |paginas.value| then index else current
  }

  /** The index after a whole sequence of requests, taken in order. */
  function Run(paginas: Option<seq<Pagina>>, current: int, navs: seq<Nav>): (r: int)
    ensures 0 <= current ==> 0 <= r
    ensures navs == [] ==> r == current
    decreases navs
  {
    if navs == [] then current else Run(paginas, Step(paginas, current, navs[0]), navs[1..])
  }

  /** Every sequence of requests keeps the index in range. */
  lemma {:induction false} RunKeepsInRange(paginas: Option<seq<Pagina>>, current: int, navs: seq<Nav>)
    requires InRange(paginas, current)
    ensures InRange(paginas, Run(paginas, current, navs))
    decreases navs
  {
    if navs != [] {
      RunKeepsInRange(paginas, Step(paginas, current, navs[0]), navs[1..]);
    }
  }

  /** Opened at page 0 on a chapter with pages, the reader stays on an existing page
      whatever it is asked to do, so it always shows a real page's image. */
  lemma ReadingStaysOnAPage(paginas: Option<seq<Pagina>>, navs: seq<Nav>)
    requires PageCount(paginas) > 0
    ensures 0 <= Run(paginas, 0, navs) < PageCount(paginas)
    ensures PageUrl(paginas, Run(paginas, 0, navs)) == paginas.value[Run(paginas, 0, navs)].imageUrl
  {
    RunKeepsInRange(paginas, 0, navs);
  }

  /** An index left past the end of a shorter chapter: no image is shown and
      "next" does nothing, while "previous" moves down by one. */
  lemma StaleIndex(paginas: Option<seq<Pagina>>, current: int)
    requires current >= PageCount(paginas) && current > 0
    ensures PageUrl(paginas, current) == ""
    ensures Step(paginas, current, Next) == current
    ensures Step(paginas, current, Previous) == current - 1
    ensures !InRange(paginas, current)
  {
  }

  /** The example of a reader on page 3 of a five-page chapter that is handed a
      two-page chapter. */
  lemma StaleIndexExample(five: seq<Pagina>, two: seq<Pagina>)
    requires |five| == 5 && |two| == 2
    ensures InRange(Some(five), 3) && !InRange(Some(two), 3)
    ensures PageUrl(Some(two), 3) == "" && Step(Some(two), 3, Next) == 3
  {
    StaleIndex(Some(two), 3);
  }

  class MangaViewer {
    /** The chapter given by the host (`@Input`); navigation never changes it, but
        the host may hand in another one. */
    var capitulo: Capitulo
    var currentPage: int

    /** The index is never negative. It need not be inside the chapter: a new chapter
        may arrive while the index stays where it was. */
    ghost predicate Valid()
      reads this`currentPage
    {
      0 <= currentPage
    }

    /** The index points at a page of the current chapter, or is the initial 0. */
    ghost predicate OnPage()
      reads this
    {
      InRange(capitulo.paginas, currentPage)
    }

    constructor (capitulo: Capitulo)
      ensures Valid() && OnPage()
      ensures this.capitulo == capitulo && currentPage == 0
    {
      this.capitulo := capitulo;
      currentPage := 0;
    }

    /** A new `@Input() capitulo`: the index is not reset. */
    method SetCapitulo(c: Capitulo)
      requires Valid()
      modifies this`capitulo
      ensures Valid()
      ensures capitulo == c && currentPage == old(currentPage)
    {
      capitulo := c;
    }

    method NextPage()
      requires Valid()
      modifies this`currentPage
      ensures Valid() && (old(OnPage()) ==> OnPage())
      ensures if capitulo.paginas.Some? && old(currentPage) < |capitulo.paginas.value| - 1
              then currentPage == old(currentPage) + 1
              else currentPage == old(currentPage)
      ensures currentPage == Step(capitulo.paginas, old(currentPage), Next)
    {
      if capitulo.paginas.Some? && currentPage < |capitulo.paginas.value| - 1 {
        currentPage := currentPage + 1;
      }
    }

    method PreviousPage()
      requires Valid()
      modifies this`currentPage
      ensures Valid() && (old(OnPage()) ==> OnPage())
      ensures if old(currentPage) > 0 then currentPage == old(currentPage) - 1
              else currentPage == old(currentPage)
      ensures currentPage == Step(capitulo.paginas, old(currentPage), Previous)
    {
      if currentPage > 0 {
        currentPage := currentPage - 1;
      }
    }

    method GoToPage(index: int)
      requires Valid()
      modifies this`currentPage
      ensures Valid() && (old(OnPage()) ==> OnPage())
      ensures if capitulo.paginas.Some? && 0 <= index < |capitulo.paginas.value|
              then currentPage == index
              else currentPage == old(currentPage)
      ensures currentPage == Step(capitulo.paginas, old(currentPage), GoTo(index))
    {
      if capitulo.paginas.Some? && index >= 0 && index < |capitulo.paginas.value| {
        currentPage := index;
      }
    }

    /** The `totalPages` getter. */
    function TotalPages(): (n: nat)
      reads this
      ensures capitulo.paginas.None? ==> n == 0
      ensures capitulo.paginas.Some? ==> n == |capitulo.paginas.value|
    {
      PageCount(capitulo.paginas)
    }

    /** The `currentPageUrl` getter: never fails, `""` when there is no such page. */
    function CurrentPageUrl(): (url: string)
      reads this
      ensures 0 <= currentPage < TotalPages() ==> url == capitulo.paginas.value[currentPage].imageUrl
      ensures !(0 <= currentPage < TotalPages()) ==> url == ""
      ensures OnPage() && TotalPages() > 0 ==> url == capitulo.paginas.value[currentPage].imageUrl
    {
      PageUrl(capitulo.paginas, currentPage)
    }
  }
}
