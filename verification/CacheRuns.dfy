/** Whole traces of accesses to whole caches: LRU inclusion, conservative misses, and the statistics. */
module CacheRuns {
  import opened Common
  import opened Sequences
  import opened CacheModel
  import opened CacheTheory

  datatype Request = Request(address: nat, isWrite: bool)

  /** A cache after a trace, and which requests hit. */
  datatype Ran = Ran(cache: CacheVal, hits: seq<bool>)

  function Run(c: CacheVal, trace: seq<Request>): (r: Result<Ran>)
    ensures r.Ok? ==> |r.value.hits| == |trace|
  {
    if trace == [] then Ok(Ran(c, []))
    else
      var before :- Run(c, trace[..|trace| - 1]);
      var last := trace[|trace| - 1];
      var o :- CacheAccess(before.cache, last.address, last.isWrite);
      Ok(Ran(o.cache, before.hits + [o.result.hit]))
  }

  predicate Sized(c: CacheVal) {
    && c.numSets > 0 && c.lineSize > 0 && c.assoc > 0
    && |c.sets| == c.numSets
    && forall i :: 0 <= i < c.numSets ==> |c.sets[i].lines| == c.assoc
  }

  predicate SameShape(a: CacheVal, b: CacheVal) { a.numSets == b.numSets && a.lineSize == b.lineSize }

  /** The tags a trace sends to set `i`, in order. */
  function TagsOf(c: CacheVal, trace: seq<Request>, i: nat): seq<nat>
    requires c.numSets > 0 && c.lineSize > 0
  {
    if trace == [] then []
    else
      var last := trace[|trace| - 1];
      TagsOf(c, trace[..|trace| - 1], i) + (if SetIndex(c, last.address) == i then [Tag(c, last.address)] else [])
  }

  /** The tags a trace misses in set `i`, in order. */
  function MissesOf(c: CacheVal, trace: seq<Request>, i: nat): seq<nat>
    requires c.numSets > 0 && c.lineSize > 0
    requires Run(c, trace).Ok?
  {
    if trace == [] then []
    else
      var last := trace[|trace| - 1];
      MissesOf(c, trace[..|trace| - 1], i) +
      (if SetIndex(c, last.address) == i && !Run(c, trace).value.hits[|trace| - 1] then [Tag(c, last.address)] else [])
  }

  // ---------------------------------------------------------------------------------------------
  // LRU

  /** Every set is an LRU set holding the newest `assoc` entries of its recency list. */
  ghost predicate LruCache(c: CacheVal, recents: seq<seq<nat>>) {
    && Sized(c) && |recents| == c.numSets
    && forall i :: 0 <= i < c.numSets ==> NoDup(recents[i]) && LruHolds(c.sets[i], Take(recents[i], c.assoc))
  }

  /** The recency lists of all sets after a trace. */
  function RecentsAfter(c: CacheVal, recents: seq<seq<nat>>, trace: seq<Request>): (r: seq<seq<nat>>)
    requires c.numSets > 0 && c.lineSize > 0
    ensures |r| == |recents|
  {
    seq(|recents|, i requires 0 <= i < |recents| => Recency(recents[i], TagsOf(c, trace, i)))
  }

  lemma FreshLru(numSets: nat, assoc: nat, lineSize: nat)
    requires numSets > 0 && assoc > 0 && lineSize > 0
    ensures LruCache(FreshCache(numSets, assoc, lineSize, LRU).value, seq(numSets, _ => []))
  {
    assert NoDup(seq(assoc, i => i));
  }

  /** One request to an LRU cache hits iff its tag is among the newest `assoc` of its set. */
  lemma LruCacheStep(c: CacheVal, recents: seq<seq<nat>>, q: Request)
    requires LruCache(c, recents)
    ensures CacheAccess(c, q.address, q.isWrite).Ok?
    ensures var i, t := SetIndex(c, q.address), Tag(c, q.address);
            var o := CacheAccess(c, q.address, q.isWrite).value;
            && SameShape(o.cache, c) && o.cache.assoc == c.assoc
            && (o.result.hit <==> t in Take(recents[i], c.assoc))
            && LruCache(o.cache, recents[i := Touch(recents[i], t)])
  {
    var i, t := SetIndex(c, q.address), Tag(c, q.address);
    LruStep(c.sets[i], Take(recents[i], c.assoc), t, q.isWrite);
    TouchTruncated(recents[i], t, c.assoc);
    TouchNoDup(recents[i], t);
  }

  lemma LruRun(c: CacheVal, recents: seq<seq<nat>>, trace: seq<Request>)
    requires LruCache(c, recents)
    ensures Run(c, trace).Ok?
    ensures SameShape(Run(c, trace).value.cache, c) && Run(c, trace).value.cache.assoc == c.assoc
    ensures LruCache(Run(c, trace).value.cache, RecentsAfter(c, recents, trace))
  {
    if trace == [] {
      assert RecentsAfter(c, recents, trace) == recents;
    } else {
      var init, last := trace[..|trace| - 1], trace[|trace| - 1];
      LruRun(c, recents, init);
      var before := RecentsAfter(c, recents, init);
      LruCacheStep(Run(c, init).value.cache, before, last);
      var i, t := SetIndex(c, last.address), Tag(c, last.address);
      RecentsStep(c, recents, trace);
    }
  }

  lemma RecentsStep(c: CacheVal, recents: seq<seq<nat>>, trace: seq<Request>)
    requires trace != [] && c.numSets > 0 && c.lineSize > 0 && |recents| == c.numSets
    ensures var last := trace[|trace| - 1];
            var before := RecentsAfter(c, recents, trace[..|trace| - 1]);
            var i := SetIndex(c, last.address);
            RecentsAfter(c, recents, trace) == before[i := Touch(before[i], Tag(c, last.address))]
  {
    var init, last := trace[..|trace| - 1], trace[|trace| - 1];
    var before, after := RecentsAfter(c, recents, init), RecentsAfter(c, recents, trace);
    forall j | 0 <= j < |recents|
      ensures after[j] == if j == SetIndex(c, last.address) then Touch(before[j], Tag(c, last.address)) else before[j]
    {
      var tags := TagsOf(c, trace, j);
      if j == SetIndex(c, last.address) {
        assert tags[..|tags| - 1] == TagsOf(c, init, j);
      } else {
        assert tags == TagsOf(c, init, j);
      }
    }
  }

  /** Inclusion: with the same sets and lines, whatever hits in the smaller LRU cache hits in the larger. */
  lemma {:induction false} LruInclusion(a: CacheVal, b: CacheVal, recents: seq<seq<nat>>, trace: seq<Request>)
    requires LruCache(a, recents) && LruCache(b, recents) && SameShape(a, b) && a.assoc <= b.assoc
    ensures Run(a, trace).Ok? && Run(b, trace).Ok?
    ensures forall k :: 0 <= k < |trace| && Run(a, trace).value.hits[k] ==> Run(b, trace).value.hits[k]
  {
    LruRun(a, recents, trace);
    LruRun(b, recents, trace);
    if trace != [] {
      var init, last := trace[..|trace| - 1], trace[|trace| - 1];
      LruInclusion(a, b, recents, init);
      LruRun(a, recents, init);
      LruRun(b, recents, init);
      SameRecents(a, b, recents, init);
      var before := RecentsAfter(a, recents, init);
      LruCacheStep(Run(a, init).value.cache, before, last);
      LruCacheStep(Run(b, init).value.cache, before, last);
      assert Take(before[SetIndex(a, last.address)], a.assoc) <= Take(before[SetIndex(a, last.address)], b.assoc);
    }
  }

  lemma SameTags(a: CacheVal, b: CacheVal, trace: seq<Request>, i: nat)
    requires SameShape(a, b) && a.numSets > 0 && a.lineSize > 0
    ensures TagsOf(a, trace, i) == TagsOf(b, trace, i)
  {
    if trace != [] {
      SameTags(a, b, trace[..|trace| - 1], i);
    }
  }

  lemma SameRecents(a: CacheVal, b: CacheVal, recents: seq<seq<nat>>, trace: seq<Request>)
    requires SameShape(a, b) && a.numSets > 0 && a.lineSize > 0
    ensures RecentsAfter(a, recents, trace) == RecentsAfter(b, recents, trace)
  {
    forall i | 0 <= i < |recents|
      ensures RecentsAfter(a, recents, trace)[i] == RecentsAfter(b, recents, trace)[i]
    {
      SameTags(a, b, trace, i);
    }
  }

  /** The last occurrence of `tag` in `tags` is at place `j`. */
  ghost predicate LastAt(tags: seq<nat>, j: nat, tag: nat) {
    j < |tags| && tags[j] == tag && forall k :: j < k < |tags| ==> tags[k] != tag
  }

  /** `tag` occurs, and fewer than `ways` distinct tags occur after its last occurrence. */
  ghost predicate ReusedWithin(tags: seq<nat>, tag: nat, ways: nat) {
    exists j :: LastAt(tags, j, tag) && |Elements(tags[j + 1..])| < ways
  }

  /** Hit or miss by reuse distance, from a fresh cache: a request hits iff its line was requested before and
      fewer than `assoc` other lines of its set were requested since. */
  lemma LruHitIff(c: CacheVal, trace: seq<Request>, q: Request)
    requires c.numSets > 0 && c.assoc > 0 && c.lineSize > 0
    requires FreshCache(c.numSets, c.assoc, c.lineSize, LRU) == Ok(c)
    ensures Run(c, trace + [q]).Ok?
    ensures Run(c, trace + [q]).value.hits[|trace|] <==>
            ReusedWithin(TagsOf(c, trace, SetIndex(c, q.address)), Tag(c, q.address), c.assoc)
  {
    hide LruCache, Recency, ReusedWithin, Take, TagsOf, CacheAccess, SetIndex, Tag, FreshSet, Run;
    var none := seq(c.numSets, _ => []);
    var i := SetIndex(c, q.address);
    FreshLru(c.numSets, c.assoc, c.lineSize);
    LruRun(c, none, trace);
    SameIndex(c, c, q.address);
    LruCacheStep(Run(c, trace).value.cache, RecentsAfter(c, none, trace), q);
    assert RecentsAfter(c, none, trace)[i] == Recency([], TagsOf(c, trace, i));
    InNewest(TagsOf(c, trace, i), Tag(c, q.address), c.assoc);
    RunOneMore(c, trace, q);
    SameIndex(c, Run(c, trace).value.cache, q.address);
  }

  lemma RunOneMore(c: CacheVal, trace: seq<Request>, q: Request)
    requires Run(c, trace).Ok? && CacheAccess(Run(c, trace).value.cache, q.address, q.isWrite).Ok?
    ensures Run(c, trace + [q]).Ok?
    ensures Run(c, trace + [q]).value.hits[|trace|] ==
            CacheAccess(Run(c, trace).value.cache, q.address, q.isWrite).value.result.hit
  {
    hide CacheAccess;
    assert (trace + [q])[..|trace|] == trace;
  }

  lemma SameIndex(a: CacheVal, b: CacheVal, address: nat)
    requires SameShape(a, b) && a.numSets > 0 && a.lineSize > 0
    ensures SetIndex(a, address) == SetIndex(b, address) < a.numSets && Tag(a, address) == Tag(b, address)
  {
  }

  lemma InNewest(tags: seq<nat>, tag: nat, ways: nat)
    requires ways > 0
    ensures tag in Take(Recency([], tags), ways) <==> ReusedWithin(tags, tag, ways)
  {
    RecencyNoDup([], tags);
    if tag in tags {
      var j := LastOccurrence(tags, tag);
      LastPlace(tags, j, tag, ways);
      assert LastAt(tags, j, tag) by {
        assert forall k :: j < k < |tags| ==> tags[k] == tags[j + 1..][k - j - 1];
      }
      assert forall i :: LastAt(tags, i, tag) ==> i == j;
    } else {
      assert tag !in Elements(Recency([], tags));
    }
  }

  lemma PlacedWithin(r: seq<nat>, tag: nat, ahead: set<nat>, ways: nat)
    requires NoDup(r) && Placed(r, tag, ahead)
    ensures tag in Take(r, ways) <==> |ahead| < ways
  {
    hide Elements;
    if |ahead| < ways {
      assert Take(r, ways)[|ahead|] == tag;
    }
  }

  lemma LastTouched(tags: seq<nat>)
    requires tags != []
    ensures Recency([], tags) != [] && Recency([], tags)[0] == tags[|tags| - 1]
  {
  }

  lemma LastPlace(tags: seq<nat>, j: nat, tag: nat, ways: nat)
    requires j < |tags| && tags[j] == tag && tag !in tags[j + 1..]
    ensures tag in Take(Recency([], tags), ways) <==> |Elements(tags[j + 1..])| < ways
  {
    hide Elements, Placed, Take, Recency, Touch;
    var upTo, since := tags[..j + 1], tags[j + 1..];
    assert tags == upTo + since;
    LastTouched(upTo);
    RecencySplit([], upTo, since);
    RecencyNoDup([], upTo);
    RecencyNoDup([], tags);
    ReuseDistance(Recency([], upTo), tag, since);
    PlacedWithin(Recency([], tags), tag, Elements(since), ways);
  }

  // ---------------------------------------------------------------------------------------------
  // FIFO

  /** The insertion list after accessing every tag of `tags` in turn. */
  function Inserted(inserted: seq<nat>, tags: seq<nat>, ways: nat): seq<nat> {
    if tags == [] then inserted
    else Insert(Inserted(inserted, tags[..|tags| - 1], ways), tags[|tags| - 1], ways)
  }

  ghost predicate FifoCache(c: CacheVal, lists: seq<seq<nat>>) {
    && Sized(c) && |lists| == c.numSets
    && forall i :: 0 <= i < c.numSets ==> FifoHolds(c.sets[i], lists[i])
  }

  function ListsAfter(c: CacheVal, lists: seq<seq<nat>>, trace: seq<Request>): (r: seq<seq<nat>>)
    requires c.numSets > 0 && c.lineSize > 0
    ensures |r| == |lists|
  {
    seq(|lists|, i requires 0 <= i < |lists| => Inserted(lists[i], TagsOf(c, trace, i), c.assoc))
  }

  lemma FreshFifo(numSets: nat, assoc: nat, lineSize: nat)
    requires numSets > 0 && assoc > 0 && lineSize > 0
    ensures FifoCache(FreshCache(numSets, assoc, lineSize, FIFO).value, seq(numSets, _ => []))
  {
  }

  lemma FifoRun(c: CacheVal, lists: seq<seq<nat>>, trace: seq<Request>)
    requires FifoCache(c, lists)
    ensures Run(c, trace).Ok?
    ensures SameShape(Run(c, trace).value.cache, c) && Run(c, trace).value.cache.assoc == c.assoc
    ensures FifoCache(Run(c, trace).value.cache, ListsAfter(c, lists, trace))
  {
    if trace == [] {
      assert ListsAfter(c, lists, trace) == lists;
    } else {
      var init, last := trace[..|trace| - 1], trace[|trace| - 1];
      FifoRun(c, lists, init);
      var before := ListsAfter(c, lists, init);
      var i, t := SetIndex(c, last.address), Tag(c, last.address);
      FifoStep(Run(c, init).value.cache.sets[i], before[i], t, last.isWrite);
      ListsStep(c, lists, trace);
    }
  }

  lemma ListsStep(c: CacheVal, lists: seq<seq<nat>>, trace: seq<Request>)
    requires trace != [] && c.numSets > 0 && c.lineSize > 0 && |lists| == c.numSets
    ensures var last := trace[|trace| - 1];
            var before := ListsAfter(c, lists, trace[..|trace| - 1]);
            var i := SetIndex(c, last.address);
            ListsAfter(c, lists, trace) == before[i := Insert(before[i], Tag(c, last.address), c.assoc)]
  {
    var init, last := trace[..|trace| - 1], trace[|trace| - 1];
    var before, after := ListsAfter(c, lists, init), ListsAfter(c, lists, trace);
    forall j | 0 <= j < |lists|
      ensures after[j] == 
              if j == SetIndex(c, last.address) then Insert(before[j], Tag(c, last.address), c.assoc) else before[j]
    {
      var tags := TagsOf(c, trace, j);
      if j == SetIndex(c, last.address) {
        assert tags[..|tags| - 1] == TagsOf(c, init, j);
      } else {
        assert tags == TagsOf(c, init, j);
      }
    }
  }

  // ---------------------------------------------------------------------------------------------
  // Conservative misses

  /** The tags of a list of accesses that an LRU set of `ways` ways misses. */
  function LruMisses(recent: seq<nat>, tags: seq<nat>, ways: nat): seq<nat> {
    if tags == [] then []
    else
      var init, last := tags[..|tags| - 1], tags[|tags| - 1];
      LruMisses(recent, init, ways) + (if last in Take(Recency(recent, init), ways) then [] else [last])
  }

  /** The tags of a list of accesses that a FIFO set of `ways` ways misses. */
  function FifoMisses(inserted: seq<nat>, tags: seq<nat>, ways: nat): seq<nat> {
    if tags == [] then []
    else
      var init, last := tags[..|tags| - 1], tags[|tags| - 1];
      FifoMisses(inserted, init, ways) + (if last in Inserted(inserted, init, ways) then [] else [last])
  }

  lemma TagsStep(c: CacheVal, trace: seq<Request>, i: nat)
    requires c.numSets > 0 && c.lineSize > 0 && trace != []
    ensures var tags, before, last := TagsOf(c, trace, i), TagsOf(c, trace[..|trace| - 1], i), trace[|trace| - 1];
            if SetIndex(c, last.address) == i then
              tags != [] && tags[..|tags| - 1] == before && tags[|tags| - 1] == Tag(c, last.address)
            else tags == before
  {
  }

  lemma LruLastHit(c: CacheVal, recents: seq<seq<nat>>, trace: seq<Request>)
    requires LruCache(c, recents) && trace != []
    ensures Run(c, trace).Ok?
    ensures var last, init := trace[|trace| - 1], trace[..|trace| - 1];
            Run(c, trace).value.hits[|trace| - 1] <==>
            Tag(c, last.address) in Take(RecentsAfter(c, recents, init)[SetIndex(c, last.address)], c.assoc)
  {
    LruRun(c, recents, trace[..|trace| - 1]);
    LruCacheStep(Run(c, trace[..|trace| - 1]).value.cache, RecentsAfter(c, recents, trace[..|trace| - 1]),
      trace[|trace| - 1]);
  }

  lemma LruMissesAt(c: CacheVal, recents: seq<seq<nat>>, trace: seq<Request>, i: nat)
    requires LruCache(c, recents) && i < c.numSets
    ensures Run(c, trace).Ok?
    ensures MissesOf(c, trace, i) == LruMisses(recents[i], TagsOf(c, trace, i), c.assoc)
  {
    LruRun(c, recents, trace);
    if trace != [] {
      LruMissesAt(c, recents, trace[..|trace| - 1], i);
      LruLastHit(c, recents, trace);
      TagsStep(c, trace, i);
    }
  }

  lemma FifoLastHit(c: CacheVal, lists: seq<seq<nat>>, trace: seq<Request>)
    requires FifoCache(c, lists) && trace != []
    ensures Run(c, trace).Ok?
    ensures var last, init := trace[|trace| - 1], trace[..|trace| - 1];
            Run(c, trace).value.hits[|trace| - 1] <==>
            Tag(c, last.address) in ListsAfter(c, lists, init)[SetIndex(c, last.address)]
  {
    var init, last := trace[..|trace| - 1], trace[|trace| - 1];
    FifoRun(c, lists, init);
    var j := SetIndex(c, last.address);
    FifoStep(Run(c, init).value.cache.sets[j], ListsAfter(c, lists, init)[j], Tag(c, last.address), last.isWrite);
  }

  lemma FifoMissesAt(c: CacheVal, lists: seq<seq<nat>>, trace: seq<Request>, i: nat)
    requires FifoCache(c, lists) && i < c.numSets
    ensures Run(c, trace).Ok?
    ensures MissesOf(c, trace, i) == FifoMisses(lists[i], TagsOf(c, trace, i), c.assoc)
  {
    FifoRun(c, lists, trace);
    if trace != [] {
      FifoMissesAt(c, lists, trace[..|trace| - 1], i);
      FifoLastHit(c, lists, trace);
      TagsStep(c, trace, i);
    }
  }

  lemma Prefixes(tags: seq<nat>)
    requires tags != []
    ensures Elements(tags) == Elements(tags[..|tags| - 1]) + {tags[|tags| - 1]}
    ensures |Elements(tags[..|tags| - 1])| <= |Elements(tags)|
  {
    assert tags == tags[..|tags| - 1] + [tags[|tags| - 1]];
    SubsetSize(Elements(tags[..|tags| - 1]), Elements(tags));
  }

  /** Only accessed tags are missed, and each at most once if all of them fit. */
  lemma {:induction false} LruMissesDistinct(recent: seq<nat>, tags: seq<nat>, ways: nat)
    requires NoDup(recent) && |Elements(tags)| <= ways
    ensures NoDup(LruMisses(recent, tags, ways))
    ensures Elements(LruMisses(recent, tags, ways)) <= Elements(tags)
  {
    if tags != [] {
      var init, last := tags[..|tags| - 1], tags[|tags| - 1];
      Prefixes(tags);
      LruMissesDistinct(recent, init, ways);
      var misses := LruMisses(recent, init, ways);
      ElementsConcat(misses, [last]);
      if last in init {
        StretchFirst(recent, init, last, ways);
      } else {
        assert last !in Elements(misses);
      }
    }
  }

  /** From any LRU state, while a set sees at most `assoc` distinct lines, it misses each at most once. */
  lemma LruConservative(c: CacheVal, recents: seq<seq<nat>>, trace: seq<Request>, i: nat)
    requires LruCache(c, recents) && i < c.numSets
    requires |Elements(TagsOf(c, trace, i))| <= c.assoc
    ensures Run(c, trace).Ok?
    ensures NoDup(MissesOf(c, trace, i)) && |MissesOf(c, trace, i)| <= c.assoc
  {
    var tags := TagsOf(c, trace, i);
    LruMissesAt(c, recents, trace, i);
    LruMissesDistinct(recents[i], tags, c.assoc);
    ElementsSize(MissesOf(c, trace, i));
    SubsetSize(Elements(MissesOf(c, trace, i)), Elements(tags));
  }

  /** The newest insertions of `list` are the distinct tags `misses`, all of them among `tags`. */
  ghost predicate NewestMisses(list: seq<nat>, misses: seq<nat>, tags: seq<nat>, ways: nat) {
    NoDup(misses) && Elements(misses) <= Elements(tags) && |list| <= ways && EndsWith(list, misses)
  }

  /** The lines missed so far are the newest insertions, while they all fit. */
  lemma {:induction false} FifoMissesDistinct(inserted: seq<nat>, tags: seq<nat>, ways: nat)
    requires |inserted| <= ways && ways > 0 && |Elements(tags)| <= ways
    ensures NewestMisses(Inserted(inserted, tags, ways), FifoMisses(inserted, tags, ways), tags, ways)
  {
    if tags != [] {
      var init, last := tags[..|tags| - 1], tags[|tags| - 1];
      Prefixes(tags);
      FifoMissesDistinct(inserted, init, ways);
      FifoMissStep(Inserted(inserted, init, ways), FifoMisses(inserted, init, ways), tags, ways);
    }
  }

  lemma FifoMissStep(list: seq<nat>, misses: seq<nat>, tags: seq<nat>, ways: nat)
    requires tags != [] && ways > 0 && |Elements(tags)| <= ways
    requires NewestMisses(list, misses, tags[..|tags| - 1], ways)
    ensures var last := tags[|tags| - 1];
            NewestMisses(Insert(list, last, ways), misses + (if last in list then [] else [last]), tags, ways)
  {
    var last := tags[|tags| - 1];
    Prefixes(tags);
    if last in list {
      assert misses + [] == misses;
    } else {
      FreshMiss(list, misses, last, tags);
      PushSuffix(list, misses, last, ways);
    }
  }

  /** `s` ends with `t`. */
  ghost predicate EndsWith(s: seq<nat>, t: seq<nat>) { |t| <= |s| && s[|s| - |t|..] == t }

  lemma FreshMiss(list: seq<nat>, misses: seq<nat>, tag: nat, tags: seq<nat>)
    requires EndsWith(list, misses) && NoDup(misses) && tag !in list
    requires tag in tags && Elements(misses) <= Elements(tags)
    ensures NoDup(misses + [tag]) && Elements(misses + [tag]) <= Elements(tags)
    ensures |misses| < |Elements(tags)|
  {
    forall x | x in misses
      ensures x in list
    {
      assert x in list[|list| - |misses|..];
    }
    ElementsConcat(misses, [tag]);
    ElementsSize(misses + [tag]);
    SubsetSize(Elements(misses + [tag]), Elements(tags));
  }

  lemma PushSuffix(list: seq<nat>, suffix: seq<nat>, tag: nat, ways: nat)
    requires EndsWith(list, suffix) && tag !in list && |suffix| < ways && |list| <= ways
    ensures EndsWith(Insert(list, tag, ways), suffix + [tag])
  {
    var kept := if |list| == ways then list[1..] else list;
    assert kept[|kept| - |suffix|..] == suffix;
    assert (kept + [tag])[|kept| - |suffix|..] == kept[|kept| - |suffix|..] + [tag];
  }

  /** From any FIFO state, while a set sees at most `assoc` distinct lines, it misses each at most once. */
  lemma FifoConservative(c: CacheVal, lists: seq<seq<nat>>, trace: seq<Request>, i: nat)
    requires FifoCache(c, lists) && i < c.numSets
    requires |Elements(TagsOf(c, trace, i))| <= c.assoc
    ensures Run(c, trace).Ok?
    ensures NoDup(MissesOf(c, trace, i)) && |MissesOf(c, trace, i)| <= c.assoc
  {
    var tags := TagsOf(c, trace, i);
    FifoMissesAt(c, lists, trace, i);
    Pigeonhole(c.sets[i].policy.queue, c.assoc);
    FifoMissesDistinct(lists[i], tags, c.assoc);
    ElementsSize(MissesOf(c, trace, i));
    SubsetSize(Elements(MissesOf(c, trace, i)), Elements(tags));
  }
}
