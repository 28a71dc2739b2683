/** Lines and sets, and exactly which evictions are dirty. */
module LineTiming {
  import opened Common
  import opened Cyclic
  import opened CacheModel
  import opened CacheRuns
  import opened CacheStats

  // ---------------------------------------------------------------------------------------------
  // Lines

  /** The line an address lies in. */
  function LineOf(c: CacheVal, address: nat): nat
    requires c.lineSize > 0
  {
    address / c.lineSize
  }

  /** Set index and tag together name exactly the line of an address. */
  lemma SetAndTagNameLine(c: CacheVal, a: nat, b: nat)
    requires c.lineSize > 0 && c.numSets > 0
    ensures SetIndex(c, a) == SetIndex(c, b) && Tag(c, a) == Tag(c, b) <==> LineOf(c, a) == LineOf(c, b)
  {
    var n, x, y := c.numSets, LineOf(c, a), LineOf(c, b);
    assert x == n * (x / n) + x % n && y == n * (y / n) + y % n;
  }

  /** Addresses share a line exactly when they lie between the same two multiples of the line size. */
  lemma SameLineIff(c: CacheVal, a: nat, b: nat, base: nat)
    requires c.lineSize > 0 && base % c.lineSize == 0 && base <= a < base + c.lineSize
    ensures LineOf(c, a) == LineOf(c, b) <==> base <= b < base + c.lineSize
  {
    var n, q := c.lineSize, base / c.lineSize;
    assert base == n * q;
    DivisionUnique(n, q, a - base, a / n, a % n);
    if base <= b < base + n { DivisionUnique(n, q, b - base, b / n, b % n); }
    assert b == n * (b / n) + b % n;
  }

  /** Consecutive lines lie in consecutive sets, round the cache. */
  lemma NextLineNextSet(c: CacheVal, a: nat)
    requires c.lineSize > 0 && c.numSets > 0
    ensures SetIndex(c, a + c.lineSize) == Mod(SetIndex(c, a) + 1, c.numSets)
  {
    var n := c.lineSize;
    assert a == n * (a / n) + a % n;
    assert n * (a / n + 1) == n * (a / n) + n;
    DivisionUnique(n, a / n + 1, a % n, (a + n) / n, (a + n) % n);
    ModAdd(a / n, 1, c.numSets);
  }

  // ---------------------------------------------------------------------------------------------
  // Dirtiness

  /** The line with tag `t` of set `i` has been written since it was last brought in. */
  predicate WrittenSinceFill(c: CacheVal, trace: seq<Request>, i: nat, t: nat)
    requires c.numSets > 0 && c.lineSize > 0 && Run(c, trace).Ok?
  {
    trace != [] &&
    var init, last := trace[..|trace| - 1], trace[|trace| - 1];
    if SetIndex(c, last.address) == i && Tag(c, last.address) == t then
      last.isWrite || (Run(c, trace).value.hits[|trace| - 1] && WrittenSinceFill(c, init, i, t))
    else WrittenSinceFill(c, init, i, t)
  }

  /** A valid line is dirty exactly when it has been written since it was brought in. */
  ghost predicate Marked(c: CacheVal, trace: seq<Request>)
    requires c.numSets > 0 && c.lineSize > 0 && Run(c, trace).Ok?
  {
    var now := Run(c, trace).value.cache;
    && SameShape(now, c) && |now.sets| == |c.sets|
    && forall i :: 0 <= i < |now.sets| ==> CleanSet(now.sets[i].lines) && SetMarked(c, trace, i, now.sets[i].lines)
  }

  ghost predicate SetMarked(c: CacheVal, trace: seq<Request>, i: nat, lines: seq<Line>)
    requires c.numSets > 0 && c.lineSize > 0 && Run(c, trace).Ok?
  {
    forall w :: 0 <= w < |lines| && lines[w].valid ==> (lines[w].dirty <==> WrittenSinceFill(c, trace, i, lines[w].tag))
  }

  /** Some way holds the tag. */
  ghost predicate Holds(lines: seq<Line>,
                        t: nat) { exists w :: 0 <= w < |lines| && lines[w].valid && lines[w].tag == t }

  /** The access drops a line that is dirty. */
  ghost predicate DropsDirty(before: seq<Line>, after: seq<Line>) {
    exists w :: 0 <= w < |before| && before[w].valid && before[w].dirty && !Holds(after, before[w].tag)
  }

  /** One access to a set, told by tags: who is there and dirty afterwards, and what is evicted. */
  lemma AccessMarks(s: SetVal, tag: nat, isWrite: bool)
    requires CleanSet(s.lines) && SetAccess(s, tag, isWrite).Ok?
    ensures var o := SetAccess(s, tag, isWrite).value;
            && (o.result.hit <==> Holds(s.lines, tag)) && |o.set_.lines| == |s.lines|
            && (forall w :: 0 <= w < |s.lines| && o.set_.lines[w].valid ==>
                  if o.set_.lines[w].tag == tag then
                    o.set_.lines[w].dirty <==> isWrite || (o.result.hit && s.lines[w].dirty)
                  else o.set_.lines[w] == s.lines[w])
            && (o.result.hit ==> forall w :: 0 <= w < |s.lines| ==>
                  o.set_.lines[w].valid == s.lines[w].valid && o.set_.lines[w].tag == s.lines[w].tag)
            && (o.result.dirtyEviction <==> DropsDirty(s.lines, o.set_.lines))
  {
    hide OnAccess, ChooseVictim;
    var o := SetAccess(s, tag, isWrite).value;
    var way := FindWay(s.lines, tag, 0);
    if way < |s.lines| {
      assert Holds(s.lines, tag);
      forall w | 0 <= w < |s.lines| && s.lines[w].valid
        ensures Holds(o.set_.lines, s.lines[w].tag)
      {
        assert o.set_.lines[w].valid && o.set_.lines[w].tag == s.lines[w].tag;
      }
    } else {
      var victim := ChooseVictim(s.policy, s.lines).value.0;
      if s.lines[victim].valid && s.lines[victim].dirty {
        assert !Holds(o.set_.lines, s.lines[victim].tag);
      }
      forall w | 0 <= w < |s.lines| && s.lines[w].valid && w != victim
        ensures Holds(o.set_.lines, s.lines[w].tag)
      {
        assert o.set_.lines[w] == s.lines[w];
      }
    }
  }

  lemma FreshMarked(numSets: nat, assoc: nat, lineSize: nat, name: PolicyName)
    requires numSets > 0 && assoc > 0 && lineSize > 0
    ensures var c := FreshCache(numSets, assoc, lineSize, name).value; Run(c, []).Ok? && Marked(c, [])
  {
    hide CleanSet;
    EmptySet(FreshSet(name, assoc).lines);
  }

  lemma EmptySet(lines: seq<Line>)
    requires forall w :: 0 <= w < |lines| ==> lines[w] == EMPTY_LINE
    ensures CleanSet(lines)
  {
  }

  /** How a trace's last request is served. */
  lemma LastServed(c: CacheVal, trace: seq<Request>)
    requires trace != [] && c.numSets > 0 && c.lineSize > 0 && Run(c, trace).Ok?
    requires SameShape(Run(c, trace[..|trace| - 1]).value.cache, c)
    ensures var init, last := trace[..|trace| - 1], trace[|trace| - 1];
            var before, now, x := Run(c, init).value.cache, Run(c, trace).value.cache, SetIndex(c, last.address);
            && SameShape(now, c) && x < |before.sets| == |now.sets|
            && SetAccess(before.sets[x], Tag(c, last.address), last.isWrite).Ok?
            && var o := SetAccess(before.sets[x], Tag(c, last.address), last.isWrite).value;
               && now.sets == before.sets[x := o.set_] && Run(c, trace).value.hits[|trace| - 1] == o.result.hit
  {
    hide SetAccess;
  }

  lemma RunPrefix(c: CacheVal, trace: seq<Request>)
    requires trace != [] && Run(c, trace).Ok?
    ensures Run(c, trace[..|trace| - 1]).Ok?
  {
  }

  lemma WrittenStep(c: CacheVal, trace: seq<Request>, i: nat, t: nat)
    requires trace != [] && c.numSets > 0 && c.lineSize > 0 && Run(c, trace).Ok?
    ensures var init, last := trace[..|trace| - 1], trace[|trace| - 1];
            WrittenSinceFill(c, trace, i, t) <==>
            if SetIndex(c, last.address) == i && Tag(c, last.address) == t then
              last.isWrite || (Run(c, trace).value.hits[|trace| - 1] && WrittenSinceFill(c, init, i, t))
            else WrittenSinceFill(c, init, i, t)
  {
  }

  lemma OneMoreMarked(c: CacheVal, trace: seq<Request>)
    requires trace != [] && c.numSets > 0 && c.lineSize > 0 && Run(c, trace).Ok? && Marked(c, trace[..|trace| - 1])
    ensures Marked(c, trace)
  {
    RunPrefix(c, trace);
    hide SetAccess, CleanSet, Run, WrittenSinceFill, SetIndex, Tag, Holds, SetMarked, DropsDirty;
    var init, last := trace[..|trace| - 1], trace[|trace| - 1];
    LastServed(c, trace);
    var before, now := Run(c, init).value.cache, Run(c, trace).value.cache;
    var x, t := SetIndex(c, last.address), Tag(c, last.address);
    SetConserves(before.sets[x], t, last.isWrite);
    forall i | 0 <= i < |now.sets|
      ensures CleanSet(now.sets[i].lines) && SetMarked(c, trace, i, now.sets[i].lines)
    {
      if i == x {
        AccessedMarked(c, trace);
      } else {
        SparedMarked(c, trace, i);
      }
    }
  }

  lemma SparedMarked(c: CacheVal, trace: seq<Request>, i: nat)
    requires trace != [] && c.numSets > 0 && c.lineSize > 0 && Run(c, trace).Ok? && Marked(c, trace[..|trace| - 1])
    requires i != SetIndex(c, trace[|trace| - 1].address) && i < |c.sets|
    ensures SetMarked(c, trace, i, Run(c, trace[..|trace| - 1]).value.cache.sets[i].lines)
  {
    RunPrefix(c, trace);
    hide Run, WrittenSinceFill, SetIndex, Tag, CleanSet;
    var lines := Run(c, trace[..|trace| - 1]).value.cache.sets[i].lines;
    assert SetMarked(c, trace[..|trace| - 1], i, lines);
    forall w | 0 <= w < |lines| && lines[w].valid
      ensures lines[w].dirty <==> WrittenSinceFill(c, trace, i, lines[w].tag)
    {
      WrittenStep(c, trace, i, lines[w].tag);
    }
  }

  lemma AccessedMarked(c: CacheVal, trace: seq<Request>)
    requires trace != [] && c.numSets > 0 && c.lineSize > 0 && Run(c, trace).Ok? && Marked(c, trace[..|trace| - 1])
    ensures var x := SetIndex(c, trace[|trace| - 1].address);
            && x < |Run(c, trace).value.cache.sets|
            && SetMarked(c, trace, x, Run(c, trace).value.cache.sets[x].lines)
  {
    RunPrefix(c, trace);
    hide Run, WrittenSinceFill, SetIndex, Tag, SetAccess, CleanSet, Holds, DropsDirty;
    var init, last := trace[..|trace| - 1], trace[|trace| - 1];
    LastServed(c, trace);
    var x, t := SetIndex(c, last.address), Tag(c, last.address);
    var before, after := Run(c, init).value.cache.sets[x].lines, Run(c, trace).value.cache.sets[x].lines;
    AccessMarks(Run(c, init).value.cache.sets[x], t, last.isWrite);
    assert SetMarked(c, init, x, before);
    forall w | 0 <= w < |after| && after[w].valid
      ensures after[w].dirty <==> WrittenSinceFill(c, trace, x, after[w].tag)
    {
      WrittenStep(c, trace, x, after[w].tag);
    }
  }

  /** From a new cache, under every policy and over every trace. */
  lemma {:induction false} DirtyIffWritten(c: CacheVal, name: PolicyName, trace: seq<Request>)
    requires FreshCache(c.numSets, c.assoc, c.lineSize, name) == Ok(c)
    ensures Run(c, trace).Ok? && Marked(c, trace)
  {
    hide Marked;
    RunSucceeds(c, name, trace);
    if trace == [] {
      FreshMarked(c.numSets, c.assoc, c.lineSize, name);
    } else {
      DirtyIffWritten(c, name, trace[..|trace| - 1]);
      OneMoreMarked(c, trace);
    }
  }

  /** The line is in the set before and not after, and has been written since it was brought in. */
  ghost predicate DropsWritten(c: CacheVal, trace: seq<Request>, i: nat, before: seq<Line>, after: seq<Line>)
    requires c.numSets > 0 && c.lineSize > 0 && Run(c, trace).Ok?
  {
    exists w :: 0 <= w < |before| && before[w].valid && WrittenSinceFill(c, trace, i, before[w].tag) &&
      !Holds(after, before[w].tag)
  }

  /** An access evicts a dirty line exactly when it drops one that has been written since it was brought in. */
  lemma DirtyEvictionIff(c: CacheVal, name: PolicyName, trace: seq<Request>, q: Request)
    requires FreshCache(c.numSets, c.assoc, c.lineSize, name) == Ok(c)
    ensures Run(c, trace).Ok? && CacheAccess(Run(c, trace).value.cache, q.address, q.isWrite).Ok?
    ensures var before := Run(c, trace).value.cache;
            var o, i := CacheAccess(before, q.address, q.isWrite).value, SetIndex(c, q.address);
            && i < |before.sets| == |o.cache.sets|
            && (o.result.dirtyEviction <==> DropsWritten(c, trace, i, before.sets[i].lines, o.cache.sets[i].lines))
  {
    DirtyIffWritten(c, name, trace);
    RunSucceeds(c, name, trace + [q]);
    assert (trace + [q])[..|trace|] == trace;
    hide SetAccess, CleanSet, WrittenSinceFill, Holds;
    var before, i := Run(c, trace).value.cache, SetIndex(c, q.address);
    AccessMarks(before.sets[i], Tag(c, q.address), q.isWrite);
    assert SetMarked(c, trace, i, before.sets[i].lines);
  }

  // ---------------------------------------------------------------------------------------------
  // The random policy

  /** A miss under the random policy fills the first way with room; without room it replaces the way its next draw
      names and uses that draw up. No other way changes, and a hit uses no draw. */
  lemma RandomReplaces(s: SetVal, tag: nat, isWrite: bool)
    requires s.policy.Random? && s.lines != [] && s.policy.draws != []
    ensures SetAccess(s, tag, isWrite).Ok?
    ensures var o := SetAccess(s, tag, isWrite).value;
            if Holds(s.lines, tag) then o.result.hit && o.set_.policy == s.policy
            else
              && !o.result.hit && |o.set_.lines| == |s.lines|
              && var full := forall w :: 0 <= w < |s.lines| ==> s.lines[w].valid;
                 && o.set_.policy == (if full then Random(s.policy.draws[1..]) else s.policy)
                 && exists v :: 0 <= v < |s.lines| && o.set_.lines == s.lines[v := Line(true, tag, isWrite)] &&
                      if full then v == s.policy.draws[0] % |s.lines|
                      else !s.lines[v].valid && forall w :: 0 <= w < v ==> s.lines[w].valid
  {
    var way := FindWay(s.lines, tag, 0);
    if way < |s.lines| {
      assert Holds(s.lines, tag);
    }
  }
}
