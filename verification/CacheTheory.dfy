/** What the replacement policies guarantee: LRU keeps the most recently used lines, FIFO the most
    recently inserted ones, and both miss at most once per line while a working set fits. */
module CacheTheory {
  import opened Sequences
  import opened CacheModel

  /** The list of distinct tags by recency, after touching `tag`. */
  function Touch(recent: seq<nat>, tag: nat): seq<nat> {
    var p := IndexOf(recent, tag, 0);
    if p == |recent| then [tag] + recent else [tag] + recent[..p] + recent[p + 1..]
  }

  /** The recency list after touching every tag of `tags` in turn, newest first. */
  function Recency(recent: seq<nat>, tags: seq<nat>): seq<nat> {
    if tags == [] then recent else Touch(Recency(recent, tags[..|tags| - 1]), tags[|tags| - 1])
  }

  /** The insertion list of a FIFO set with `ways` ways, oldest first, after accessing `tag`. */
  function Insert(inserted: seq<nat>, tag: nat, ways: nat): seq<nat> {
    if tag in inserted then inserted
    else if |inserted| == ways && ways > 0 then inserted[1..] + [tag]
    else inserted + [tag]
  }

  // ---------------------------------------------------------------------------------------------
  // LRU refines a truncated recency list

  /** The valid ways are a prefix of the recency order and hold the tags `recent`, in order. */
  ghost predicate LruHolds(s: SetVal, recent: seq<nat>) {
    && s.policy.Lru?
    && |s.policy.order| == |s.lines| > 0
    && NoDup(s.policy.order)
    && (forall j :: 0 <= j < |s.lines| ==> s.policy.order[j] < |s.lines|)
    && |recent| <= |s.lines|
    && NoDup(recent)
    && (forall j :: 0 <= j < |recent| ==> LineHolds(s.lines[s.policy.order[j]], recent[j]))
    && (forall j :: |recent| <= j < |s.lines| ==> !s.lines[s.policy.order[j]].valid)
  }

  predicate LineHolds(line: Line, tag: nat) { line.valid && line.tag == tag }

  lemma TouchNoDup(recent: seq<nat>, tag: nat)
    requires NoDup(recent)
    ensures NoDup(Touch(recent, tag))
    ensures Elements(Touch(recent, tag)) == Elements(recent) + {tag}
  {
    var p := IndexOf(recent, tag, 0);
    var t := Touch(recent, tag);
    if p < |recent| {
      assert forall j :: 1 <= j <= p ==> t[j] == recent[j - 1];
      assert forall j :: p < j < |t| ==> t[j] == recent[j];
      forall x | x in recent
        ensures x in t
      {
        var j :| 0 <= j < |recent| && recent[j] == x;
        assert x == if j < p then t[j + 1] else if j == p then t[0] else t[j];
      }
    } else {
      assert forall j :: 1 <= j < |t| ==> t[j] == recent[j - 1];
      forall x | x in recent ensures x in t { }
    }
  }

  lemma LruWay(s: SetVal, recent: seq<nat>, way: nat) returns (j: nat)
    requires LruHolds(s, recent) && way < |s.lines|
    ensures j < |s.lines| && s.policy.order[j] == way
    ensures s.lines[way].valid <==> j < |recent|
  {
    Pigeonhole(s.policy.order, |s.lines|);
    assert way in s.policy.order;
    j := IndexOf(s.policy.order, way, 0);
    assert j < |recent| ==> LineHolds(s.lines[s.policy.order[j]], recent[j]);
  }

  function Drop(s: seq<nat>, j: nat): seq<nat> { if j < |s| then s[..j] + s[j + 1..] else s }

  /** Where the entry now at place `i` was before the entry at place `j` moved to the front. */
  function Before(i: nat, j: nat): nat { if i == 0 then j else if i <= j then i - 1 else i }

  ghost predicate MovedUp(s': seq<nat>, s: seq<nat>, j: nat) {
    && |s'| == (if j < |s| then |s| else |s| + 1)
    && forall i :: 0 < i < |s'| ==> s'[i] == s[Before(i, j)]
  }

  lemma DropFacts(x: nat, s: seq<nat>, j: nat)
    requires NoDup(s) && forall i :: 0 <= i < |s| && i != j ==> s[i] != x
    ensures NoDup([x] + Drop(s, j))
    ensures MovedUp([x] + Drop(s, j), s, j)
  {
    var d := [x] + Drop(s, j);
    forall i | 0 < i < |d|
      ensures d[i] == s[Before(i, j)]
    {
    }
  }

  lemma MoveFront(order: seq<nat>, j: nat)
    requires NoDup(order) && j < |order|
    ensures MoveToFront(order, order[j]) == [order[j]] + Drop(order, j)
  {
    assert IndexOf(order, order[j], 0) == j;
  }

  /** Writing `tag` into the way at place `j` and moving that way to the front. */
  lemma LruPut(s: SetVal, recent: seq<nat>, j: nat, line: Line, tag: nat)
    requires LruHolds(s, recent) && j < |s.lines| && LineHolds(line, tag)
    requires forall i :: 0 <= i < |recent| && i != j ==> recent[i] != tag
    ensures LruHolds(SetVal(s.lines[s.policy.order[j] := line], Lru(MoveToFront(s.policy.order, s.policy.order[j]))),
                     [tag] + Drop(recent, j))
  {
    var order := s.policy.order;
    var lines' := s.lines[order[j] := line];
    var order' := MoveToFront(order, order[j]);
    var recent' := [tag] + Drop(recent, j);
    assert NoDup(order') && MovedUp(order', order, j) && order'[0] == order[j] by {
      MoveFront(order, j);
      DropFacts(order[j], order, j);
    }
    assert NoDup(recent') && MovedUp(recent', recent, j) by {
      DropFacts(tag, recent, j);
    }
    LruPutLines(s, recent, j, line, tag, order', recent');
  }

  lemma LruPutLines(s: SetVal, recent: seq<nat>, j: nat, line: Line, tag: nat, order': seq<nat>, recent': seq<nat>)
    requires LruHolds(s, recent) && j < |s.lines| && LineHolds(line, tag)
    requires MovedUp(order', s.policy.order, j) && order'[0] == s.policy.order[j]
    requires MovedUp(recent', recent, j) && recent'[0] == tag
    requires NoDup(order') && NoDup(recent')
    ensures LruHolds(SetVal(s.lines[s.policy.order[j] := line], Lru(order')), recent')
  {
    var order := s.policy.order;
    var lines' := s.lines[order[j] := line];
    forall i | 0 < i < |s.lines|
      ensures order'[i] < |s.lines| && lines'[order'[i]] == s.lines[order[Before(i, j)]]
    {
    }
    forall i | 0 < i < |recent'|
      ensures LineHolds(lines'[order'[i]], recent'[i])
    {
      assert LineHolds(s.lines[order[Before(i, j)]], recent[Before(i, j)]);
    }
  }

  /** A hit: the tag is in the list, and it moves to the front. */
  lemma LruHit(s: SetVal, recent: seq<nat>, tag: nat, isWrite: bool)
    requires LruHolds(s, recent) && FindWay(s.lines, tag, 0) < |s.lines|
    ensures tag in recent && SetAccess(s, tag, isWrite).Ok?
    ensures var o := SetAccess(s, tag, isWrite).value;
            && o.result == AccessResult(true, false, false)
            && |o.set_.lines| == |s.lines|
            && LruHolds(o.set_, Touch(recent, tag))
  {
    var way := FindWay(s.lines, tag, 0);
    var j := LruWay(s, recent, way);
    assert LineHolds(s.lines[s.policy.order[j]], recent[j]);
    assert IndexOf(recent, tag, 0) == j;
    assert Touch(recent, tag) == [tag] + Drop(recent, j);
    LruPut(s, recent, j, s.lines[way].(dirty := s.lines[way].dirty || isWrite), tag);
    hide LruHolds, Touch, Drop, MoveToFront;
  }

  /** A miss: the tag is not in the list; an invalid way is filled, or the last of the list is evicted. */
  lemma LruMiss(s: SetVal, recent: seq<nat>, tag: nat, isWrite: bool)
    requires LruHolds(s, recent) && FindWay(s.lines, tag, 0) == |s.lines|
    ensures tag !in recent && SetAccess(s, tag, isWrite).Ok?
    ensures var o := SetAccess(s, tag, isWrite).value;
            && !o.result.hit
            && (o.result.eviction <==> |recent| == |s.lines|)
            && |o.set_.lines| == |s.lines|
            && LruHolds(o.set_, Take(Touch(recent, tag), |s.lines|))
  {
    var order := s.policy.order;
    forall j | 0 <= j < |recent|
      ensures recent[j] != tag
    {
      assert LineHolds(s.lines[order[j]], recent[j]);
    }
    assert Touch(recent, tag) == [tag] + recent;
    var invalid := FirstInvalid(s.lines, 0);
    var last := |order| - 1;
    var victim := if invalid < |s.lines| then invalid else order[last];
    assert invalid == |s.lines| ==> |recent| == |s.lines| by {
      assert |recent| < |s.lines| ==> !s.lines[order[|recent|]].valid;
    }
    var j := LruWay(s, recent, victim);
    assert j == last || invalid < |s.lines|;
    LruPut(s, recent, j, Line(true, tag, isWrite), tag);
    assert Take(Touch(recent, tag), |s.lines|) == [tag] + Drop(recent, j);
  }

  /** One access to an LRU set hits exactly the tags of the list, and the list follows Touch. */
  lemma LruStep(s: SetVal, recent: seq<nat>, tag: nat, isWrite: bool)
    requires LruHolds(s, recent)
    ensures SetAccess(s, tag, isWrite).Ok?
    ensures var o := SetAccess(s, tag, isWrite).value;
            && (o.result.hit <==> tag in recent)
            && (o.result.eviction <==> tag !in recent && |recent| == |s.lines|)
            && |o.set_.lines| == |s.lines|
            && LruHolds(o.set_, Take(Touch(recent, tag), |s.lines|))
  {
    if FindWay(s.lines, tag, 0) < |s.lines| {
      LruHit(s, recent, tag, isWrite);
    } else {
      LruMiss(s, recent, tag, isWrite);
    }
  }

  // ---------------------------------------------------------------------------------------------
  // Reuse distance: LRU is a stack algorithm

  lemma RecencyNoDup(recent: seq<nat>, tags: seq<nat>)
    requires NoDup(recent)
    ensures NoDup(Recency(recent, tags))
    ensures Elements(Recency(recent, tags)) == Elements(recent) + Elements(tags)
  {
    if tags != [] {
      var init, last := tags[..|tags| - 1], tags[|tags| - 1];
      assert tags == init + [last];
      assert Elements(tags) == Elements(init) + {last};
      RecencyNoDup(recent, init);
      TouchNoDup(Recency(recent, init), last);
      hide Elements, Touch, NoDup;
    }
  }

  /** Truncating a recency list before a touch loses nothing that survives truncation after it. */
  lemma TouchTruncated(recent: seq<nat>, tag: nat, ways: nat)
    requires NoDup(recent) && ways > 0
    ensures Take(Touch(Take(recent, ways), tag), ways) == Take(Touch(recent, tag), ways)
    ensures NoDup(Take(recent, ways))
  {
    var p := IndexOf(recent, tag, 0);
    var q := IndexOf(Take(recent, ways), tag, 0);
    if p < ways {
      assert q == p;
    } else if |recent| > ways {
      assert q == ways;
    }
  }

  /** `tag` is at the place of `r` that has exactly the tags `ahead` in front of it. */
  ghost predicate Placed(r: seq<nat>, tag: nat, ahead: set<nat>) {
    |ahead| < |r| && r[|ahead|] == tag && Elements(r[..|ahead|]) == ahead
  }

  lemma RecencySplit(recent: seq<nat>, a: seq<nat>, b: seq<nat>)
    ensures Recency(recent, a + b) == Recency(Recency(recent, a), b)
  {
    if b == [] {
      assert a + b == a;
    } else {
      var init := b[..|b| - 1];
      assert (a + b)[..|a + b| - 1] == a + init;
      RecencySplit(recent, a, init);
    }
  }

  /** From a list headed by `tag`, after tags other than it, exactly those tags are in front of it. */
  lemma {:induction false} ReuseDistance(recent: seq<nat>, tag: nat, since: seq<nat>)
    requires NoDup(recent) && recent != [] && recent[0] == tag && tag !in since
    ensures Placed(Recency(recent, since), tag, Elements(since))
  {
    if since == [] {
      assert Elements(since) == {};
      assert Elements(recent[..0]) == {};
    } else {
      var init, last := since[..|since| - 1], since[|since| - 1];
      assert since == init + [last];
      assert Elements(since) == Elements(init) + {last};
      ReuseDistance(recent, tag, init);
      RecencyNoDup(recent, init);
      TouchPlace(Recency(recent, init), tag, Elements(init), last);
      hide Elements, Touch, Placed, NoDup;
    }
  }

  /** Touching another tag moves an entry down by one exactly when that tag was behind it. */
  lemma TouchPlace(r: seq<nat>, entry: nat, ahead: set<nat>, tag: nat)
    requires NoDup(r) && Placed(r, entry, ahead) && entry != tag
    ensures Placed(Touch(r, tag), entry, ahead + {tag})
  {
    var p := IndexOf(r, tag, 0);
    if p < |ahead| {
      TouchAhead(r, entry, ahead, p);
    } else {
      assert tag !in r[..|ahead|];
      TouchBehind(r, entry, ahead, tag, p);
    }
  }

  lemma TouchAhead(r: seq<nat>, entry: nat, ahead: set<nat>, p: nat)
    requires NoDup(r) && Placed(r, entry, ahead) && p < |ahead| && p == IndexOf(r, r[p], 0)
    ensures Placed(Touch(r, r[p]), entry, ahead + {r[p]})
  {
    var n := |ahead|;
    var t := Touch(r, r[p]);
    assert t == [r[p]] + r[..p] + r[p + 1..];
    assert t[n] == r[n];
    assert t[..n] == [r[p]] + r[..p] + r[p + 1..n];
    assert r[..n] == r[..p] + [r[p]] + r[p + 1..n];
    SamePieces(r[..p], r[p], r[p + 1..n]);
    assert r[..n][p] == r[p];
    assert ahead + {r[p]} == ahead;
  }

  lemma TouchBehind(r: seq<nat>, entry: nat, ahead: set<nat>, tag: nat, p: nat)
    requires Placed(r, entry, ahead) && |ahead| < p && p == IndexOf(r, tag, 0) && tag !in ahead
    ensures Placed(Touch(r, tag), entry, ahead + {tag})
  {
    var n := |ahead|;
    var t := Touch(r, tag);
    assert t[n + 1] == r[n];
    assert t[..n + 1] == [tag] + r[..n];
    assert Elements([tag] + r[..n]) == {tag} + Elements(r[..n]);
    hide Elements, Touch, IndexOf, NoDup;
    assert |ahead + {tag}| == n + 1;
  }

  lemma SamePieces(a: seq<nat>, x: nat, b: seq<nat>)
    ensures Elements([x] + a + b) == Elements(a + [x] + b)
  {
    ElementsConcat([x] + a, b);
    ElementsConcat([x], a);
    ElementsConcat(a + [x], b);
    ElementsConcat(a, [x]);
  }

  lemma LastOccurrence(tags: seq<nat>, tag: nat) returns (j: nat)
    requires tag in tags
    ensures j < |tags| && tags[j] == tag && tag !in tags[j + 1..]
  {
    j := |tags| - 1;
    while tags[j] != tag
      invariant 0 <= j < |tags| && tag !in tags[j + 1..]
      decreases j
    {
      j := j - 1;
      assert tag in tags[..j + 1] by { assert tags == tags[..j + 1] + [tags[j + 1]] + tags[j + 2..]; }
    }
  }

  /** Every tag of a stretch is among the first entries, as many as the stretch has distinct tags. */
  lemma StretchFirst(recent: seq<nat>, tags: seq<nat>, tag: nat, ways: nat)
    requires NoDup(recent) && tag in tags && |Elements(tags)| <= ways
    ensures tag in Take(Recency(recent, tags), ways)
  {
    var j := LastOccurrence(tags, tag);
    var upTo, since := tags[..j + 1], tags[j + 1..];
    assert tags == upTo + since;
    RecencySplit(recent, upTo, since);
    RecencyNoDup(recent, upTo);
    ReuseDistance(Recency(recent, upTo), tag, since);
    assert Elements(since) + {tag} <= Elements(tags);
    SubsetSize(Elements(since) + {tag}, Elements(tags));
    assert Take(Recency(recent, tags), ways)[|Elements(since)|] == tag;
  }

  // ---------------------------------------------------------------------------------------------
  // FIFO refines a bounded insertion list

  /** The queue holds exactly the valid ways, oldest first, and their tags are `inserted`. */
  ghost predicate FifoHolds(s: SetVal, inserted: seq<nat>) {
    && s.policy.Fifo?
    && |s.policy.inQueue| == |s.lines| > 0
    && |s.policy.queue| == |inserted|
    && NoDup(s.policy.queue) && NoDup(inserted)
    && (forall j :: 0 <= j < |inserted| ==>
          s.policy.queue[j] < |s.lines| && LineHolds(s.lines[s.policy.queue[j]], inserted[j]))
    && (forall w :: 0 <= w < |s.lines| ==>
          (s.policy.inQueue[w] <==> s.lines[w].valid) && (s.lines[w].valid <==> w in s.policy.queue))
  }

  lemma FifoLookup(s: SetVal, inserted: seq<nat>, tag: nat)
    requires FifoHolds(s, inserted)
    ensures FindWay(s.lines, tag, 0) < |s.lines| <==> tag in inserted
  {
    if tag in inserted {
      var j :| 0 <= j < |inserted| && inserted[j] == tag;
      assert LineHolds(s.lines[s.policy.queue[j]], inserted[j]);
    }
    var way := FindWay(s.lines, tag, 0);
    if way < |s.lines| {
      var j :| 0 <= j < |s.policy.queue| && s.policy.queue[j] == way;
      assert LineHolds(s.lines[s.policy.queue[j]], inserted[j]);
    }
  }

  lemma FifoHit(s: SetVal, inserted: seq<nat>, tag: nat, isWrite: bool)
    requires FifoHolds(s, inserted) && tag in inserted
    ensures SetAccess(s, tag, isWrite).Ok?
    ensures var o := SetAccess(s, tag, isWrite).value;
            o.result == AccessResult(true, false, false) && |o.set_.lines| == |s.lines| && FifoHolds(o.set_, inserted)
  {
    FifoLookup(s, inserted, tag);
    var way := FindWay(s.lines, tag, 0);
    var lines' := s.lines[way := s.lines[way].(dirty := s.lines[way].dirty || isWrite)];
    forall j | 0 <= j < |inserted|
      ensures LineHolds(lines'[s.policy.queue[j]], inserted[j])
    {
      assert LineHolds(s.lines[s.policy.queue[j]], inserted[j]);
    }
  }

  /** Appending a way outside the queue, freshly filled with a new tag. */
  lemma FifoPush(lines: seq<Line>, queue: seq<nat>, inserted: seq<nat>, inQueue: seq<bool>, way: nat, tag: nat,
                 isWrite: bool)
    requires |inQueue| == |lines| > 0 && |queue| == |inserted| && NoDup(queue) && NoDup(inserted)
    requires way < |lines| && !inQueue[way] && way !in queue && tag !in inserted
    requires forall j :: 0 <= j < |inserted| ==> queue[j] < |lines| && LineHolds(lines[queue[j]], inserted[j])
    requires forall w :: 0 <= w < |lines| && w != way ==>
               (inQueue[w] <==> lines[w].valid) && (lines[w].valid <==> w in queue)
    ensures FifoHolds(SetVal(lines[way := Line(true, tag, isWrite)], OnAccess(Fifo(queue, inQueue), way)),
            inserted + [tag])
  {
    var s' := SetVal(lines[way := Line(true, tag, isWrite)], OnAccess(Fifo(queue, inQueue), way));
    assert s'.policy == Fifo(queue + [way], inQueue[way := true]);
    forall j | 0 <= j < |inserted + [tag]|
      ensures s'.policy.queue[j] < |lines| && LineHolds(s'.lines[s'.policy.queue[j]], (inserted + [tag])[j])
    {
      if j < |inserted| {
        assert LineHolds(lines[queue[j]], inserted[j]);
      }
    }
  }

  lemma FifoMiss(s: SetVal, inserted: seq<nat>, tag: nat, isWrite: bool)
    requires FifoHolds(s, inserted) && tag !in inserted
    ensures SetAccess(s, tag, isWrite).Ok?
    ensures var o := SetAccess(s, tag, isWrite).value;
            && !o.result.hit && (o.result.eviction <==> |inserted| == |s.lines|)
            && |o.set_.lines| == |s.lines|
            && FifoHolds(o.set_, Insert(inserted, tag, |s.lines|))
  {
    var Fifo(queue, inQueue) := s.policy;
    var n := |s.lines|;
    FifoLookup(s, inserted, tag);
    Pigeonhole(queue, n);
    var invalid := FirstInvalid(s.lines, 0);
    if invalid < n {
      assert |inserted| < n by { assert |queue| == n ==> invalid in queue; }
      FifoPush(s.lines, queue, inserted, inQueue, invalid, tag, isWrite);
    } else {
      FifoFull(s, inserted);
      var way := queue[0];
      assert LineHolds(s.lines[way], inserted[0]);
      forall w | 0 <= w < n && w != way
        ensures w in queue <==> w in queue[1..]
      {
        assert queue == [way] + queue[1..];
      }
      FifoPush(s.lines, queue[1..], inserted[1..], inQueue[way := false], way, tag, isWrite);
    }
  }

  lemma FifoFull(s: SetVal, inserted: seq<nat>)
    requires FifoHolds(s, inserted) && FirstInvalid(s.lines, 0) == |s.lines|
    ensures |inserted| == |s.lines|
  {
    var n := |s.lines|;
    Pigeonhole(s.policy.queue, n);
    ElementsSize(s.policy.queue);
    assert Below(n) <= Elements(s.policy.queue);
    SubsetSize(Below(n), Elements(s.policy.queue));
  }

  /** One access to a FIFO set hits exactly the tags of the list, and the list follows Insert. */
  lemma FifoStep(s: SetVal, inserted: seq<nat>, tag: nat, isWrite: bool)
    requires FifoHolds(s, inserted)
    ensures SetAccess(s, tag, isWrite).Ok?
    ensures var o := SetAccess(s, tag, isWrite).value;
            && (o.result.hit <==> tag in inserted)
            && (o.result.eviction <==> tag !in inserted && |inserted| == |s.lines|)
            && |o.set_.lines| == |s.lines|
            && FifoHolds(o.set_, Insert(inserted, tag, |s.lines|))
  {
    if tag in inserted {
      FifoHit(s, inserted, tag, isWrite);
    } else {
      FifoMiss(s, inserted, tag, isWrite);
    }
  }
}
