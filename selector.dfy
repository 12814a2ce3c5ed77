/** The tag picker: one selection record per known tag, a filtered and sorted view
    of those records, toggling, and the diff of selected ids that drives the usage
    counters. `filteredTags` shares its records with `tagSelections`; the model keeps
    that sharing by holding positions into `tagSelections`. */
module Selector {
  import opened Models
  import opened Text

  /** `selectedTagIds.includes(tag.id!)`: never true of a tag without an id. */
  predicate IdIn(tag: Tag, ids: seq<string>) {
    tag.id.Some? && tag.id.value in ids
  }

  /** The records built by `initializeTagSelections`: one per tag, in the same order,
      selected exactly when the tag's id is among the selected ids. */
  function InitialSelections(tags: seq<Tag>, ids: seq<string>): (r: seq<TagSelection>)
    ensures |r| == |tags|
    ensures forall i :: 0 <= i < |r| ==> r[i].tag == tags[i] && (r[i].selected <==> IdIn(tags[i], ids))
  {
    if tags == [] then []
    else [TagSelection(tags[0], IdIn(tags[0], ids))] + InitialSelections(tags[1..], ids)
  }

  // ---- ordering --------------------------------------------------------------

  /** The comparator of `sortTags` read as "may come first": selected records before
      unselected ones, records with the same flag by name. */
  predicate Before(a: TagSelection, b: TagSelection)
    ensures a.selected && !b.selected ==> Before(a, b)
    ensures !a.selected && b.selected ==> !Before(a, b)
    ensures a.tag.nome == b.tag.nome && a.selected == b.selected ==> Before(a, b)
  {
    if a.selected == b.selected then NameLe(a.tag.nome, b.tag.nome) else a.selected
  }

  lemma BeforeTotal(a: TagSelection, b: TagSelection)
    ensures Before(a, b) || Before(b, a)
  {
    NameLeTotal(a.tag.nome, b.tag.nome);
  }

  lemma BeforeTransitive(a: TagSelection, b: TagSelection, c: TagSelection)
    requires Before(a, b) && Before(b, c)
    ensures Before(a, c)
  {
    if a.selected == b.selected == c.selected {
      NameLeTransitive(a.tag.nome, b.tag.nome, c.tag.nome);
    }
  }

  /** Every entry of `ps` is a position of `sel`. */
  predicate Positions(sel: seq<TagSelection>, ps: seq<nat>) {
    forall i :: 0 <= i < |ps| ==> ps[i] < |sel|
  }

  /** The records at positions `ps` are in comparator order. */
  predicate SortedBy(sel: seq<TagSelection>, ps: seq<nat>)
    requires Positions(sel, ps)
  {
    forall i, j :: 0 <= i < j < |ps| ==> Before(sel[ps[i]], sel[ps[j]])
  }

  function Insert(sel: seq<TagSelection>, p: nat, ps: seq<nat>): (r: seq<nat>)
    requires p < |sel| && Positions(sel, ps)
    ensures multiset(r) == multiset(ps) + multiset{p}
    ensures Positions(sel, r)
  {
    if ps == [] then [p]
    else if Before(sel[p], sel[ps[0]]) then [p] + ps
    else
      assert ps == [ps[0]] + ps[1..];
      [ps[0]] + Insert(sel, p, ps[1..])
  }

  /** `Array.prototype.sort` with the `sortTags` comparator, as an insertion sort. */
  function SortPositions(sel: seq<TagSelection>, ps: seq<nat>): (r: seq<nat>)
    requires Positions(sel, ps)
    ensures multiset(r) == multiset(ps)
    ensures Positions(sel, r)
  {
    if ps == [] then []
    else
      assert ps == [ps[0]] + ps[1..];
      Insert(sel, ps[0], SortPositions(sel, ps[1..]))
  }

  /** Every record at positions `ps` may come after the record at `x`. */
  predicate AllAfter(sel: seq<TagSelection>, x: nat, ps: seq<nat>)
    requires x < |sel| && Positions(sel, ps)
  {
    forall j :: 0 <= j < |ps| ==> Before(sel[x], sel[ps[j]])
  }

  lemma SortedTail(sel: seq<TagSelection>, ps: seq<nat>)
    requires Positions(sel, ps) && SortedBy(sel, ps) && ps != []
    ensures Positions(sel, ps[1..]) && SortedBy(sel, ps[1..])
    ensures AllAfter(sel, ps[0], ps[1..])
  {
    var rest := ps[1..];
    forall i, j | 0 <= i < j < |rest| ensures Before(sel[rest[i]], sel[rest[j]]) {
      assert rest[i] == ps[i + 1] && rest[j] == ps[j + 1];
    }
    forall j | 0 <= j < |rest| ensures Before(sel[ps[0]], sel[rest[j]]) {
      assert rest[j] == ps[j + 1];
    }
  }

  lemma SortedCons(sel: seq<TagSelection>, x: nat, ps: seq<nat>)
    requires x < |sel| && Positions(sel, ps) && SortedBy(sel, ps) && AllAfter(sel, x, ps)
    ensures Positions(sel, [x] + ps) && SortedBy(sel, [x] + ps)
  {
    var r := [x] + ps;
    forall i, j | 0 <= i < j < |r| ensures Before(sel[r[i]], sel[r[j]]) {
      assert r[j] == ps[j - 1];
      if i > 0 {
        assert r[i] == ps[i - 1];
      }
    }
  }

  lemma AllAfterTail(sel: seq<TagSelection>, x: nat, ps: seq<nat>)
    requires x < |sel| && Positions(sel, ps) && AllAfter(sel, x, ps) && ps != []
    ensures Positions(sel, ps[1..]) && AllAfter(sel, x, ps[1..])
  {
    forall j | 0 <= j < |ps[1..]| ensures Before(sel[x], sel[ps[1..][j]]) {
      assert ps[1..][j] == ps[j + 1];
    }
  }

  lemma AllAfterCons(sel: seq<TagSelection>, x: nat, y: nat, ps: seq<nat>)
    requires x < |sel| && y < |sel| && Positions(sel, ps)
    requires AllAfter(sel, x, ps) && Before(sel[x], sel[y])
    ensures Positions(sel, [y] + ps) && AllAfter(sel, x, [y] + ps)
  {
    forall j | 0 <= j < |[y] + ps| ensures Before(sel[x], sel[([y] + ps)[j]]) {
      if j > 0 {
        assert ([y] + ps)[j] == ps[j - 1];
      }
    }
  }

  /** A record that may precede every record of a view and the inserted one may
      precede every record of the view after the insertion. */
  lemma {:induction false} AllAfterInsert(sel: seq<TagSelection>, x: nat, p: nat, ps: seq<nat>)
    requires x < |sel| && p < |sel| && Positions(sel, ps)
    requires AllAfter(sel, x, ps) && Before(sel[x], sel[p])
    ensures AllAfter(sel, x, Insert(sel, p, ps))
  {
    if ps == [] {
      AllAfterCons(sel, x, p, ps);
    } else if Before(sel[p], sel[ps[0]]) {
      AllAfterCons(sel, x, p, ps);
    } else {
      AllAfterTail(sel, x, ps);
      AllAfterInsert(sel, x, p, ps[1..]);
      AllAfterCons(sel, x, ps[0], Insert(sel, p, ps[1..]));
    }
  }

  lemma {:induction false} InsertSorted(sel: seq<TagSelection>, p: nat, ps: seq<nat>)
    requires p < |sel| && Positions(sel, ps) && SortedBy(sel, ps)
    ensures SortedBy(sel, Insert(sel, p, ps))
  {
    if ps == [] {
    } else if Before(sel[p], sel[ps[0]]) {
      SortedTail(sel, ps);
      forall j | 0 <= j < |ps| ensures Before(sel[p], sel[ps[j]]) {
        if j > 0 {
          assert ps[j] == ps[1..][j - 1];
          BeforeTransitive(sel[p], sel[ps[0]], sel[ps[j]]);
        }
      }
      SortedCons(sel, p, ps);
    } else {
      BeforeTotal(sel[p], sel[ps[0]]);
      SortedTail(sel, ps);
      InsertSorted(sel, p, ps[1..]);
      AllAfterInsert(sel, ps[0], p, ps[1..]);
      SortedCons(sel, ps[0], Insert(sel, p, ps[1..]));
    }
  }

  /** The sorted view is a permutation of its input and is in comparator order. */
  lemma {:induction false} SortPositionsSorted(sel: seq<TagSelection>, ps: seq<nat>)
    requires Positions(sel, ps)
    ensures SortedBy(sel, SortPositions(sel, ps))
    ensures multiset(SortPositions(sel, ps)) == multiset(ps)
  {
    if ps != [] {
      assert ps == [ps[0]] + ps[1..];
      SortPositionsSorted(sel, ps[1..]);
      InsertSorted(sel, ps[0], SortPositions(sel, ps[1..]));
    }
  }

  /** Sorting a view neither adds nor drops a position. */
  lemma SortKeepsMembers(sel: seq<TagSelection>, ps: seq<nat>)
    requires Positions(sel, ps)
    ensures forall k :: k in SortPositions(sel, ps) <==> k in ps
  {
    var r := SortPositions(sel, ps);
    assert multiset(r) == multiset(ps);
    forall k ensures k in r <==> k in ps {
      assert k in r <==> k in multiset(r);
      assert k in ps <==> k in multiset(ps);
    }
  }

  /** The sorted search view holds exactly the positions whose records match. */
  lemma SearchViewMembers(sel: seq<TagSelection>, term: string)
    ensures forall k: nat :: k in SortPositions(sel, Matching(sel, term, |sel|)) <==>
      k < |sel| && Matches(sel[k].tag, term)
  {
    MatchingMeaning(sel, term, |sel|);
    SortKeepsMembers(sel, Matching(sel, term, |sel|));
  }

  /** What the order means: in a sorted view every selected record precedes every
      unselected one, and records with the same flag are in name order. */
  lemma SortedMeaning(sel: seq<TagSelection>, ps: seq<nat>, i: int, j: int)
    requires Positions(sel, ps) && SortedBy(sel, ps)
    requires 0 <= i < j < |ps|
    ensures sel[ps[j]].selected ==> sel[ps[i]].selected
    ensures sel[ps[i]].selected == sel[ps[j]].selected ==> NameLe(sel[ps[i]].tag.nome, sel[ps[j]].tag.nome)
  {
    assert Before(sel[ps[i]], sel[ps[j]]);
  }

  // ---- search ----------------------------------------------------------------

  /** The search term of `onSearch`: lower-cased, then trimmed. */
  function SearchTerm(text: string): (r: string)
    ensures Tight(r)
    ensures r == "" <==> Blank(text)
    ensures forall i :: 0 <= i < |r| ==> !('A' <= r[i] <= 'Z')
  {
    var lowered := Lower(text);
    assert Blank(lowered) <==> Blank(text) by {
      forall i | 0 <= i < |text| ensures IsSpace(lowered[i]) <==> IsSpace(text[i]) {
      }
    }
    TrimOccurs(lowered);
    Trim(lowered)
  }

  /** The filter of `onSearch`: the lower-cased name contains the term, or the tag has
      a description whose lower-cased form contains it. */
  predicate Matches(tag: Tag, term: string)
    ensures term == "" ==> Matches(tag, term)
    ensures Matches(tag, term) ==>
      |term| <= |tag.nome| || (tag.descricao.Some? && |term| <= |tag.descricao.value|)
  {
    Contains(Lower(tag.nome), term)
    || (tag.descricao.Some? && Contains(Lower(tag.descricao.value), term))
  }

  /** The positions below `n` whose records pass the filter, in increasing order. */
  function Matching(sel: seq<TagSelection>, term: string, n: nat): (r: seq<nat>)
    requires n <= |sel|
    ensures forall i :: 0 <= i < |r| ==> r[i] < n
    ensures Positions(sel, r)
  {
    if n == 0 then []
    else Matching(sel, term, n - 1) + (if Matches(sel[n - 1].tag, term) then [n - 1] else [])
  }

  /** A position is kept exactly when its record passes the filter, and the kept
      positions are strictly increasing. */
  lemma {:induction false} MatchingMeaning(sel: seq<TagSelection>, term: string, n: nat)
    requires n <= |sel|
    ensures forall k: nat :: k in Matching(sel, term, n) <==> k < n && Matches(sel[k].tag, term)
    ensures forall i, j :: 0 <= i < j < |Matching(sel, term, n)| ==>
      Matching(sel, term, n)[i] < Matching(sel, term, n)[j]
  {
    if n > 0 {
      MatchingMeaning(sel, term, n - 1);
    }
  }

  /** Every position of `sel`, in order: the copy `[...tagSelections]`. */
  function AllPositions(n: nat): (r: seq<nat>)
    ensures |r| == n
    ensures forall i :: 0 <= i < n ==> r[i] == i
  {
    if n == 0 then [] else AllPositions(n - 1) + [n - 1]
  }

  /** A blank search keeps every record. */
  lemma {:induction false} BlankSearchKeepsAll(sel: seq<TagSelection>, text: string, n: nat)
    requires Blank(text) && n <= |sel|
    ensures Matching(sel, SearchTerm(text), n) == AllPositions(n)
  {
    assert Blank(Lower(text));
    assert SearchTerm(text) == "";
    if n > 0 {
      BlankSearchKeepsAll(sel, text, n - 1);
      EmptyIsContained(Lower(sel[n - 1].tag.nome));
    }
  }

  // ---- selected ids and tags -------------------------------------------------

  /** Every record's tag carries an id (the `tag.id!` of the source). */
  predicate HasIds(sel: seq<TagSelection>) {
    forall i :: 0 <= i < |sel| ==> sel[i].tag.id.Some?
  }

  /** The `selectedTags` getter: the tags of the selected records, in record order. */
  function SelectedTags(sel: seq<TagSelection>): (r: seq<Tag>)
    ensures |r| <= |sel|
  {
    if sel == [] then []
    else (if sel[0].selected then [sel[0].tag] else []) + SelectedTags(sel[1..])
  }

  /** A tag is among the selected tags exactly when it is the tag of a selected record. */
  lemma {:induction false} SelectedTagsMeaning(sel: seq<TagSelection>)
    ensures forall i :: 0 <= i < |sel| && sel[i].selected ==> sel[i].tag in SelectedTags(sel)
    ensures forall t :: t in SelectedTags(sel) ==>
      exists i :: 0 <= i < |sel| && sel[i].selected && sel[i].tag == t
  {
    if sel != [] {
      SelectedTagsMeaning(sel[1..]);
      forall t | t in SelectedTags(sel)
        ensures exists i :: 0 <= i < |sel| && sel[i].selected && sel[i].tag == t
      {
        if !(sel[0].selected && t == sel[0].tag) {
          assert t in SelectedTags(sel[1..]);
          var i :| 0 <= i < |sel[1..]| && sel[1..][i].selected && sel[1..][i].tag == t;
          assert sel[i + 1] == sel[1..][i];
        }
      }
      forall i | 0 <= i < |sel| && sel[i].selected ensures sel[i].tag in SelectedTags(sel) {
        if i > 0 {
          assert sel[i] == sel[1..][i - 1];
        }
      }
    }
  }

  /** The ids of the selected records, in record order. */
  function SelectedIds(sel: seq<TagSelection>): (r: seq<string>)
    requires HasIds(sel)
    ensures |r| <= |sel|
  {
    if sel == [] then []
    else (if sel[0].selected then [sel[0].tag.id.value] else []) + SelectedIds(sel[1..])
  }

  /** An id is among the selected ids exactly when it is the id of a selected record. */
  lemma {:induction false} SelectedIdsMeaning(sel: seq<TagSelection>)
    requires HasIds(sel)
    ensures forall x :: x in SelectedIds(sel) <==>
      exists i :: 0 <= i < |sel| && sel[i].selected && sel[i].tag.id == Some(x)
  {
    if sel != [] {
      var rest := sel[1..];
      assert HasIds(rest) by {
        forall i | 0 <= i < |rest| ensures rest[i].tag.id.Some? {
          assert rest[i] == sel[i + 1];
        }
      }
      SelectedIdsMeaning(rest);
      forall x ensures x in SelectedIds(sel) <==>
        exists i :: 0 <= i < |sel| && sel[i].selected && sel[i].tag.id == Some(x)
      {
        if x in SelectedIds(sel) && !(sel[0].selected && sel[0].tag.id == Some(x)) {
          assert x in SelectedIds(rest);
          var i :| 0 <= i < |rest| && rest[i].selected && rest[i].tag.id == Some(x);
          assert sel[i + 1] == rest[i];
        }
        if exists i :: 0 <= i < |sel| && sel[i].selected && sel[i].tag.id == Some(x) {
          var i :| 0 <= i < |sel| && sel[i].selected && sel[i].tag.id == Some(x);
          if i > 0 {
            assert rest[i - 1] == sel[i];
          }
        }
      }
    }
  }

  function IdsOf(tags: seq<Tag>): seq<string>
    requires forall i :: 0 <= i < |tags| ==> tags[i].id.Some?
  {
    if tags == [] then [] else [tags[0].id.value] + IdsOf(tags[1..])
  }

  /** The emitted ids are exactly the ids of the emitted tags, position by position. */
  lemma {:induction false} SelectedIdsAreTagIds(sel: seq<TagSelection>)
    requires HasIds(sel)
    ensures forall i :: 0 <= i < |SelectedTags(sel)| ==> SelectedTags(sel)[i].id.Some?
    ensures SelectedIds(sel) == IdsOf(SelectedTags(sel))
  {
    if sel != [] {
      SelectedIdsAreTagIds(sel[1..]);
      var head := if sel[0].selected then [sel[0].tag] else [];
      IdsOfAppend(head, SelectedTags(sel[1..]));
    }
  }

  lemma {:induction false} IdsOfAppend(a: seq<Tag>, b: seq<Tag>)
    requires forall i :: 0 <= i < |a| ==> a[i].id.Some?
    requires forall i :: 0 <= i < |b| ==> b[i].id.Some?
    ensures IdsOf(a + b) == IdsOf(a) + IdsOf(b)
  {
    if a != [] {
      assert (a + b)[0] == a[0] && (a + b)[1..] == a[1..] + b;
      IdsOfAppend(a[1..], b);
    } else {
      assert a + b == b;
    }
  }

  /** Selection order is record order: the selected tags of two runs of records are
      those of the first run followed by those of the second. */
  lemma {:induction false} SelectedTagsAppend(a: seq<TagSelection>, b: seq<TagSelection>)
    ensures SelectedTags(a + b) == SelectedTags(a) + SelectedTags(b)
  {
    if a != [] {
      assert (a + b)[0] == a[0] && (a + b)[1..] == a[1..] + b;
      SelectedTagsAppend(a[1..], b);
      var head := if a[0].selected then [a[0].tag] else [];
      assert SelectedTags(a + b) == head + (SelectedTags(a[1..]) + SelectedTags(b));
      assert SelectedTags(a) == head + SelectedTags(a[1..]);
    } else {
      assert a + b == b;
    }
  }

  /** The elements of `a` that are not in `b`, in the order of `a`. */
  function Without(a: seq<string>, b: seq<string>): (r: seq<string>)
    ensures |r| <= |a|
    ensures forall x :: x in r <==> x in a && x !in b
  {
    if a == [] then []
    else (if a[0] in b then [] else [a[0]]) + Without(a[1..], b)
  }

  /** `addedTags` and `removedTags` of `updateSelectedTags` never share an id, and both
      are empty exactly when the old and new id lists have the same members. */
  lemma UsageDiffMeaning(oldIds: seq<string>, newIds: seq<string>)
    ensures forall x :: !(x in Without(newIds, oldIds) && x in Without(oldIds, newIds))
    ensures (Without(newIds, oldIds) == [] && Without(oldIds, newIds) == [])
            <==> (forall x :: x in oldIds <==> x in newIds)
  {
    var added, removed := Without(newIds, oldIds), Without(oldIds, newIds);
    if added == [] && removed == [] {
      forall x ensures x in oldIds <==> x in newIds {
        assert x !in added && x !in removed;
      }
    }
    if forall x :: x in oldIds <==> x in newIds {
      forall x ensures multiset(added)[x] == 0 && multiset(removed)[x] == 0 {
        assert x !in added && x !in removed;
      }
      assert multiset(added) == multiset{} && multiset(removed) == multiset{};
    }
  }

  /** The first record whose tag has id `id` (`Array.prototype.find`). */
  function FindById(sel: seq<TagSelection>, id: Option<string>): (r: Option<nat>)
    ensures r.Some? ==> r.value < |sel| && sel[r.value].tag.id == id
    ensures r.Some? ==> forall j :: 0 <= j < r.value ==> sel[j].tag.id != id
    ensures r.None? ==> forall j :: 0 <= j < |sel| ==> sel[j].tag.id != id
  {
    if sel == [] then None
    else if sel[0].tag.id == id then Some(0)
    else match FindById(sel[1..], id)
      case None => None
      case Some(k) => Some(k + 1)
  }

  /** What the component hands to its host and to the tag service. */
  datatype Event =
    | IdsChanged(ids: seq<string>)
    | TagsChanged(tags: seq<Tag>)
    | UsageRequested(added: seq<string>, removed: seq<string>)

  /** The records `sel` mirror the tags and carry ids, and `view` points into them. */
  predicate Coherent(tags: seq<Tag>, sel: seq<TagSelection>, view: seq<nat>) {
    && |sel| == |tags|
    && (forall i :: 0 <= i < |tags| ==> sel[i].tag == tags[i])
    && HasIds(sel)
    && Positions(sel, view)
  }

  /** Setting one record's flag keeps the records coherent with the tags and the view. */
  lemma SetFlagKeepsCoherent(tags: seq<Tag>, sel: seq<TagSelection>, view: seq<nat>, k: nat, b: bool)
    requires Coherent(tags, sel, view) && k < |sel|
    ensures Coherent(tags, sel[k := TagSelection(sel[k].tag, b)], view)
  {
    var sel' := sel[k := TagSelection(sel[k].tag, b)];
    forall i | 0 <= i < |sel'| ensures sel'[i].tag == sel[i].tag {
    }
  }

  /** Fresh records for tags that all carry ids are coherent with the full view. */
  lemma InitialCoherent(tags: seq<Tag>, ids: seq<string>)
    requires forall i :: 0 <= i < |tags| ==> tags[i].id.Some?
    ensures Coherent(tags, InitialSelections(tags, ids), AllPositions(|tags|))
  {
    var sel := InitialSelections(tags, ids);
    forall i | 0 <= i < |sel| ensures sel[i].tag.id.Some? {
      assert sel[i].tag == tags[i];
    }
  }

  class TagSelector {
    var selectedTagIds: seq<string>
    var allTags: seq<Tag>
    var tagSelections: seq<TagSelection>
    /** The filtered, sorted view: positions of records in `tagSelections`. */
    var filteredTags: seq<nat>
    var searchText: string
    /** Emitted outputs and usage-update requests, oldest first. */
    var events: seq<Event>

    /** The records mirror `allTags` and carry ids; the view points into them. */
    ghost predicate Consistent()
      reads this`allTags, this`tagSelections, this`filteredTags
    {
      Coherent(allTags, tagSelections, filteredTags)
    }

    /** Between calls the view is also sorted. */
    ghost predicate Valid()
      reads this`allTags, this`tagSelections, this`filteredTags
    {
      Consistent() && SortedBy(tagSelections, filteredTags)
    }

    constructor (selectedTagIds: seq<string>)
      ensures Valid()
      ensures this.selectedTagIds == selectedTagIds
      ensures allTags == [] && tagSelections == [] && filteredTags == []
      ensures searchText == "" && events == []
    {
      this.selectedTagIds := selectedTagIds;
      allTags, tagSelections, filteredTags := [], [], [];
      searchText, events := "", [];
    }

    /** The subscription callback of `loadTags`: store the tags and build the records. */
    method ReceiveTags(tags: seq<Tag>)
      requires Valid()
      requires forall i :: 0 <= i < |tags| ==> tags[i].id.Some?
      modifies this`allTags, this`tagSelections, this`filteredTags
      ensures Valid()
      ensures allTags == tags
      ensures tagSelections == InitialSelections(tags, old(selectedTagIds))
      ensures filteredTags == SortPositions(tagSelections, AllPositions(|tags|))
      ensures selectedTagIds == old(selectedTagIds) && searchText == old(searchText)
      ensures events == old(events)
    {
      allTags := tags;
      InitializeTagSelections();
    }

    method InitializeTagSelections()
      requires forall i :: 0 <= i < |allTags| ==> allTags[i].id.Some?
      modifies this`tagSelections, this`filteredTags
      ensures Valid()
      ensures tagSelections == InitialSelections(allTags, selectedTagIds)
      ensures filteredTags == SortPositions(tagSelections, AllPositions(|allTags|))
      ensures allTags == old(allTags) && selectedTagIds == old(selectedTagIds)
      ensures searchText == old(searchText) && events == old(events)
    {
      var selections := InitialSelections(allTags, selectedTagIds);
      tagSelections, filteredTags := selections, AllPositions(|allTags|);
      InitialCoherent(allTags, selectedTagIds);
      SortTags();
      assert tagSelections == selections;
      assert allTags == old(allTags) && selectedTagIds == old(selectedTagIds);
    }

    method SortTags()
      requires Consistent()
      modifies this`filteredTags
      ensures Valid()
      ensures filteredTags == SortPositions(tagSelections, old(filteredTags))
      ensures multiset(filteredTags) == multiset(old(filteredTags))
    {
      SortPositionsSorted(tagSelections, filteredTags);
      filteredTags := SortPositions(tagSelections, filteredTags);
    }

    method OnSearch()
      requires Consistent()
      modifies this`filteredTags
      ensures Valid()
      ensures filteredTags
        == SortPositions(tagSelections, Matching(tagSelections, SearchTerm(searchText), |tagSelections|))
    {
      var searchTerm := SearchTerm(searchText);
      var matching := Matching(tagSelections, searchTerm, |tagSelections|);
      assert Coherent(allTags, tagSelections, matching);
      filteredTags := matching;
      SortTags();
      assert tagSelections == old(tagSelections) && searchText == old(searchText);
    }

    method ToggleTag(k: nat)
      requires Consistent() && k < |tagSelections|
      modifies this`tagSelections, this`selectedTagIds, this`events, this`filteredTags
      ensures Valid()
      ensures tagSelections
        == old(tagSelections)[k := TagSelection(old(tagSelections[k].tag), !old(tagSelections[k].selected))]
      ensures selectedTagIds == SelectedIds(tagSelections)
      ensures events == old(events) + UpdateEvents(old(selectedTagIds), tagSelections)
      ensures filteredTags == SortPositions(tagSelections, old(filteredTags))
      ensures allTags == old(allTags) && searchText == old(searchText)
    {
      SetSelected(k, !tagSelections[k].selected);
    }

    method RemoveTag(tag: Tag)
      requires Valid()
      modifies this`tagSelections, this`selectedTagIds, this`events, this`filteredTags
      ensures Valid()
      ensures FindById(old(tagSelections), tag.id).None? ==>
        && tagSelections == old(tagSelections) && filteredTags == old(filteredTags)
        && selectedTagIds == old(selectedTagIds) && events == old(events)
      ensures FindById(old(tagSelections), tag.id).Some? ==>
        var k := FindById(old(tagSelections), tag.id).value;
        && tagSelections == old(tagSelections)[k := TagSelection(old(tagSelections[k].tag), false)]
        && selectedTagIds == SelectedIds(tagSelections)
        && events == old(events) + UpdateEvents(old(selectedTagIds), tagSelections)
        && filteredTags == SortPositions(tagSelections, old(filteredTags))
      ensures allTags == old(allTags) && searchText == old(searchText)
    {
      var found := FindById(tagSelections, tag.id);
      if found.Some? {
        SetSelected(found.value, false);
      }
    }

    /** The steps `toggleTag` and `removeTag` share once they have a record: set its
        flag, then `updateSelectedTags`, then `sortTags`. */
    method SetSelected(k: nat, b: bool)
      requires Consistent() && k < |tagSelections|
      modifies this`tagSelections, this`selectedTagIds, this`events, this`filteredTags
      ensures Valid()
      ensures tagSelections == old(tagSelections)[k := TagSelection(old(tagSelections[k].tag), b)]
      ensures selectedTagIds == SelectedIds(tagSelections)
      ensures events == old(events) + UpdateEvents(old(selectedTagIds), tagSelections)
      ensures filteredTags == SortPositions(tagSelections, old(filteredTags))
      ensures allTags == old(allTags) && searchText == old(searchText)
    {
      SetFlagKeepsCoherent(allTags, tagSelections, filteredTags, k, b);
      var selections := tagSelections[k := TagSelection(tagSelections[k].tag, b)];
      tagSelections := selections;
      UpdateSelectedTags();
      ghost var ids, emitted := selectedTagIds, events;
      SortTags();
      assert tagSelections == selections && selectedTagIds == ids && events == emitted;
    }

    method UpdateSelectedTags()
      requires Consistent()
      modifies this`selectedTagIds, this`events
      ensures Consistent()
      ensures selectedTagIds == SelectedIds(tagSelections)
      ensures events == old(events) + UpdateEvents(old(selectedTagIds), tagSelections)
    {
      var oldSelectedIds := selectedTagIds;
      var newSelectedIds := SelectedIds(tagSelections);
      selectedTagIds := newSelectedIds;
      events := events + [IdsChanged(selectedTagIds), TagsChanged(SelectedTags(tagSelections))];
      var addedTags := Without(newSelectedIds, oldSelectedIds);
      var removedTags := Without(oldSelectedIds, newSelectedIds);
      if |addedTags| > 0 || |removedTags| > 0 {
        events := events + [UsageRequested(addedTags, removedTags)];
      }
    }

    /** The `selectedTags` getter. */
    function SelectedTagsNow(): (r: seq<Tag>)
      reads this
      ensures r == SelectedTags(tagSelections)
      ensures forall i :: 0 <= i < |tagSelections| && tagSelections[i].selected ==> tagSelections[i].tag in r
    {
      SelectedTagsMeaning(tagSelections);
      SelectedTags(tagSelections)
    }
  }

  /** What `updateSelectedTags` emits when the selected ids go from `oldIds` to those of
      `sel`: the new ids, the new tags, and a usage update when anything was added or
      removed. */
  function UpdateEvents(oldIds: seq<string>, sel: seq<TagSelection>): (r: seq<Event>)
    requires HasIds(sel)
    ensures |r| == 2 || |r| == 3
    ensures |r| >= 2 && r[0] == IdsChanged(SelectedIds(sel)) && r[1] == TagsChanged(SelectedTags(sel))
    ensures |r| == 3 <==> Without(SelectedIds(sel), oldIds) != [] || Without(oldIds, SelectedIds(sel)) != []
    ensures |r| == 3 ==> r[2] == UsageRequested(Without(SelectedIds(sel), oldIds), Without(oldIds, SelectedIds(sel)))
  {
    var newIds := SelectedIds(sel);
    var added, removed := Without(newIds, oldIds), Without(oldIds, newIds);
    [IdsChanged(newIds), TagsChanged(SelectedTags(sel))]
      + (if |added| > 0 || |removed| > 0 then [UsageRequested(added, removed)] else [])
  }
}
