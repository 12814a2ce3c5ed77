/** The tag service: a per-id cache of document streams that every write clears,
    the records it writes, and the batch of usage-counter increments. The database
    is not modelled; its writes are recorded in an effect log, and whether a write
    resolves or rejects is an input. */
module Tags {
  import opened Models

  /** An `Observable` handed out by the service. `serial` tells apart streams created
      at different times, so that "the same stream" can be stated. */
  datatype Stream = TagDoc(id: string, serial: nat) | AllTags(serial: nat)

  /** One staged `batch.update(tagRef, { usageCount: increment(delta) })`. */
  datatype Increment = Increment(tagId: string, delta: int)

  /** A write sent to the `tags` collection. */
  datatype Effect =
    | Create(record: TagDraft)
    | Update(id: string, changes: TagDraft)
    | Delete(id: string)
    | UsageBatch(batch: seq<Increment>)

  datatype Result<T> = Success(value: T) | Failure

  /** The document `createTag` adds: the given fields, a creation time, and a usage
      count of 0 whatever count was supplied. */
  function NewTagRecord(tag: TagDraft, now: Instant): (r: TagDraft)
    ensures r.id == tag.id && r.nome == tag.nome && r.descricao == tag.descricao
    ensures r.dataCriacao == Some(now) && r.usageCount == Some(0)
  {
    TagDraft(tag.id, tag.nome, tag.descricao, Some(now), Some(0))
  }

  /** The fields `updateTag` sends: the changes without `dataCriacao`, all others kept. */
  function UpdateData(changes: TagDraft): (r: TagDraft)
    ensures r.dataCriacao.None?
    ensures r.id == changes.id && r.nome == changes.nome && r.descricao == changes.descricao
    ensures r.usageCount == changes.usageCount
  {
    TagDraft(changes.id, changes.nome, changes.descricao, None, changes.usageCount)
  }

  /** `delta` staged once for each id, in order. */
  function Staged(ids: seq<string>, delta: int): seq<Increment> {
    seq(|ids|, i requires 0 <= i < |ids| => Increment(ids[i], delta))
  }

  function Occurrences(ids: seq<string>, id: string): nat {
    if ids == [] then 0 else (if ids[0] == id then 1 else 0) + Occurrences(ids[1..], id)
  }

  /** The change a committed batch makes to the usage count of `id`. */
  function NetDelta(batch: seq<Increment>, id: string): int {
    if batch == [] then 0
    else (if batch[0].tagId == id then batch[0].delta else 0) + NetDelta(batch[1..], id)
  }

  /** The two `forEach` loops of `updateTagsUsage`: +1 for every added id, then -1 for
      every removed id, in one batch. */
  method StageUsage(addedTags: seq<string>, removedTags: seq<string>) returns (batch: seq<Increment>)
    ensures batch == Staged(addedTags, 1) + Staged(removedTags, -1)
    ensures |batch| == |addedTags| + |removedTags|
  {
    batch := [];
    for i := 0 to |addedTags|
      invariant batch == Staged(addedTags[..i], 1)
    {
      batch := batch + [Increment(addedTags[i], 1)];
    }
    assert addedTags[..|addedTags|] == addedTags;
    for j := 0 to |removedTags|
      invariant batch == Staged(addedTags, 1) + Staged(removedTags[..j], -1)
    {
      batch := batch + [Increment(removedTags[j], -1)];
    }
    assert removedTags[..|removedTags|] == removedTags;
  }

  lemma {:induction false} NetDeltaAppend(a: seq<Increment>, b: seq<Increment>, id: string)
    ensures NetDelta(a + b, id) == NetDelta(a, id) + NetDelta(b, id)
  {
    if a == [] {
      assert a + b == b;
    } else {
      assert (a + b)[0] == a[0] && (a + b)[1..] == a[1..] + b;
      NetDeltaAppend(a[1..], b, id);
    }
  }

  lemma {:induction false} NetDeltaOfStaged(ids: seq<string>, delta: int, id: string)
    ensures NetDelta(Staged(ids, delta), id) == delta * Occurrences(ids, id)
  {
    if ids != [] {
      assert Staged(ids, delta)[1..] == Staged(ids[1..], delta);
      NetDeltaOfStaged(ids[1..], delta, id);
    }
  }

  /** Committing the staged batch moves the usage count of every id by the number of
      times it was added minus the number of times it was removed. */
  lemma UsageNetDelta(addedTags: seq<string>, removedTags: seq<string>, id: string)
    ensures NetDelta(Staged(addedTags, 1) + Staged(removedTags, -1), id)
            == Occurrences(addedTags, id) - Occurrences(removedTags, id)
  {
    NetDeltaAppend(Staged(addedTags, 1), Staged(removedTags, -1), id);
    NetDeltaOfStaged(addedTags, 1, id);
    NetDeltaOfStaged(removedTags, -1, id);
  }

  class TagService {
    /** `tagsCache`: one stream per requested tag id. */
    var tagsCache: map<string, Stream>
    /** `allTagsCache$`. */
    var allTagsCache: Stream
    /** How many streams have been created so far. */
    var streams: nat
    /** The writes sent to the database, oldest first. */
    ghost var effects: seq<Effect>

    /** Every cached stream is the document stream of its own key and was created
        earlier. */
    ghost predicate Valid()
      reads this
    {
      && (forall id :: id in tagsCache ==>
            tagsCache[id].TagDoc? && tagsCache[id].id == id && tagsCache[id].serial < streams)
      && allTagsCache.AllTags? && allTagsCache.serial < streams
    }

    constructor ()
      ensures Valid()
      ensures tagsCache == map[] && allTagsCache == AllTags(0) && streams == 1 && effects == []
    {
      tagsCache := map[];
      allTagsCache := AllTags(0);
      streams := 1;
      effects := [];
    }

    /** `getTags`. */
    function GetTags(): (s: Stream)
      reads this
      requires Valid()
      ensures s == allTagsCache && s.AllTags? && s.serial < streams
    {
      allTagsCache
    }

    /** `getTagById`: get-or-insert on the cache. */
    method GetTagById(id: string) returns (s: Stream)
      requires Valid()
      modifies this`tagsCache, this`streams
      ensures Valid()
      ensures id in tagsCache && s == tagsCache[id]
      ensures id in old(tagsCache) ==>
        tagsCache == old(tagsCache) && streams == old(streams) && s == old(tagsCache[id])
      ensures id !in old(tagsCache) ==>
        && s == TagDoc(id, old(streams)) && streams == old(streams) + 1
        && tagsCache == old(tagsCache)[id := s]
      ensures tagsCache.Keys == old(tagsCache).Keys + {id}
      ensures forall other :: other in old(tagsCache) ==> tagsCache[other] == old(tagsCache)[other]
    {
      if id !in tagsCache {
        var tagStream := TagDoc(id, streams);
        streams := streams + 1;
        tagsCache := tagsCache[id := tagStream];
      }
      s := tagsCache[id];
    }

    /** `createTag`: add the new record; on success clear the cache and give the new
        document's id. */
    method CreateTag(tag: TagDraft, now: Instant, newId: string, write: Outcome) returns (r: Result<string>)
      requires Valid()
      modifies this
      ensures Valid()
      ensures write.Done? ==>
        && r == Success(newId)
        && effects == old(effects) + [Create(NewTagRecord(tag, now))]
        && Invalidated(old(streams))
      ensures write.Rejected? ==> r == Failure && unchanged(this)
    {
      var newTag := NewTagRecord(tag, now);
      if write.Rejected? {
        return Failure;
      }
      effects := effects + [Create(newTag)];
      InvalidateCache();
      r := Success(newId);
    }

    /** `updateTag`. */
    method UpdateTag(id: string, changes: TagDraft, write: Outcome) returns (r: Outcome)
      requires Valid()
      modifies this
      ensures Valid() && r == write
      ensures write.Done? ==>
        effects == old(effects) + [Update(id, UpdateData(changes))] && Invalidated(old(streams))
      ensures write.Rejected? ==> unchanged(this)
    {
      var updateData := UpdateData(changes);
      if write.Rejected? {
        return Rejected;
      }
      effects := effects + [Update(id, updateData)];
      InvalidateCache();
      r := Done;
    }

    /** `deleteTag`. */
    method DeleteTag(id: string, write: Outcome) returns (r: Outcome)
      requires Valid()
      modifies this
      ensures Valid() && r == write
      ensures write.Done? ==> effects == old(effects) + [Delete(id)] && Invalidated(old(streams))
      ensures write.Rejected? ==> unchanged(this)
    {
      if write.Rejected? {
        return Rejected;
      }
      effects := effects + [Delete(id)];
      InvalidateCache();
      r := Done;
    }

    /** `updateTagsUsage`: stage the increments, commit them in one batch, then clear
        the cache. */
    method UpdateTagsUsage(addedTags: seq<string>, removedTags: seq<string>, write: Outcome) returns (r: Outcome)
      requires Valid()
      modifies this
      ensures Valid() && r == write
      ensures write.Done? ==>
        && effects == old(effects) + [UsageBatch(Staged(addedTags, 1) + Staged(removedTags, -1))]
        && Invalidated(old(streams))
      ensures write.Rejected? ==> unchanged(this)
    {
      var batch := StageUsage(addedTags, removedTags);
      if write.Rejected? {
        return Rejected;
      }
      effects := effects + [UsageBatch(batch)];
      InvalidateCache();
      r := Done;
    }

    /** `invalidateCache`: drop every cached stream and rebuild the all-tags stream. */
    method InvalidateCache()
      requires Valid()
      modifies this`tagsCache, this`allTagsCache, this`streams
      ensures Valid() && Invalidated(old(streams))
    {
      tagsCache := map[];
      allTagsCache := AllTags(streams);
      streams := streams + 1;
    }

    /** The state right after `invalidateCache` ran when `before` streams existed. */
    ghost predicate Invalidated(before: nat)
      reads this
    {
      tagsCache == map[] && allTagsCache == AllTags(before) && streams == before + 1
    }
  }
}
