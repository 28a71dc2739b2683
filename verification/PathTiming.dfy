/** What a memory access costs: by where its line still is, by the request history, and over whole traces. */
module PathTiming {
  import opened Common
  import opened CacheModel
  import opened CacheRuns
  import opened LineTiming
  import opened MemoryModel

  datatype Cost = Cost(latency: nat, dirtyEvictions: nat)

  datatype PathRan = PathRan(mem: MemVal, costs: seq<Cost>)

  /** One request after another through L1 and L2. */
  function PathRun(m: MemVal, trace: seq<Request>): (r: Result<PathRan>)
    ensures r.Ok? ==> |r.value.costs| == |trace|
  {
    if trace == [] then Ok(PathRan(m, []))
    else
      var before :- PathRun(m, trace[..|trace| - 1]);
      var last := trace[|trace| - 1];
      var t :- CacheLatency(before.mem, last.address, last.isWrite);
      Ok(PathRan(t.mem, before.costs + [Cost(t.latency, t.dirtyEvictions)]))
  }

  // ---------------------------------------------------------------------------------------------
  // One access

  /** What one access costs under any policies, by what it does to the counts of the two caches: the L1's latency, the
      L2's on an L1 miss, global memory's on an L2 miss, and the writeback's on a dirty eviction from the L1. */
  lemma AccessCosts(m: MemVal, address: nat, isWrite: bool)
    requires CacheLatency(m, address, isWrite).Ok?
    ensures var t := CacheLatency(m, address, isWrite).value;
            var missed1, missed2 := t.mem.l1.stats.misses - m.l1.stats.misses,
              t.mem.l2.stats.misses - m.l2.stats.misses;
            var dirty := t.mem.l1.stats.dirtyEvictions - m.l1.stats.dirtyEvictions;
            && missed1 in {0, 1} && 0 <= missed2 <= missed1 && 0 <= dirty <= missed1 && t.dirtyEvictions == dirty
            && t.mem.l1.stats.accesses == m.l1.stats.accesses + 1
            && t.mem.l2.stats.accesses == m.l2.stats.accesses + missed1
            && t.latency == m.latencies.l1 + (if missed1 == 1 then m.latencies.l2 else 0)
                            + (if missed2 == 1 then m.latencies.global else 0)
                            + (if dirty == 1 then m.latencies.writeback else 0)
            && t.mem.latencies == m.latencies
  {
    hide ChooseVictim, OnAccess;
  }

  /** The last request of a trace. */
  lemma LastCost(m: MemVal, trace: seq<Request>)
    requires trace != [] && PathRun(m, trace).Ok?
    ensures var init, last := trace[..|trace| - 1], trace[|trace| - 1];
            && PathRun(m, init).Ok?
            && var before := PathRun(m, init).value;
               var t := CacheLatency(before.mem, last.address, last.isWrite);
               t.Ok? && PathRun(m, trace).value ==
                 PathRan(t.value.mem, before.costs + [Cost(t.value.latency, t.value.dirtyEvictions)])
  {
    hide CacheLatency;
  }

  lemma LastCounts(costs: seq<Cost>, c: Cost)
    ensures TotalLatency(costs + [c]) == TotalLatency(costs) + c.latency
    ensures DirtyCount(costs + [c]) == DirtyCount(costs) + c.dirtyEvictions
  {
    assert (costs + [c])[..|costs|] == costs;
  }

  /** The counts of misses and dirty evictions, weighted by the latencies of the levels they reach. */
  function Weighted(l: Latencies, accesses: int, misses1: int, misses2: int, dirty: int): int {
    l.l1 * accesses + l.l2 * misses1 + l.global * misses2 + l.writeback * dirty
  }

  lemma WeightedStep(l: Latencies, a: int, b: int, c: int, d: int, b': int, c': int, d': int)
    requires b' in {0, 1} && c' in {0, 1} && d' in {0, 1}
    ensures Weighted(l, a + 1, b + b', c + c', d + d') ==
            Weighted(l, a, b, c, d) + l.l1 + (if b' == 1 then l.l2 else 0) + (if c' == 1 then l.global else 0)
            + (if d' == 1 then l.writeback else 0)
  {
    OneMore(l.l1, a, 1);
    OneMore(l.l2, b, b');
    OneMore(l.global, c, c');
    OneMore(l.writeback, d, d');
  }

  lemma NoCosts(m: MemVal)
    ensures PathRun(m, []) == Ok(PathRan(m, [])) && TotalLatency([]) == 0 && DirtyCount([]) == 0
    ensures Weighted(m.latencies, 0, 0, 0, 0) == 0
  {
  }

  /** Over any trace, caches and policies: the latencies add up to the access, miss and dirty-eviction counts weighted
      by the latencies of the levels they reach, the quantity behind the average memory access time. */
  lemma {:induction false} CostsAddUp(m: MemVal, trace: seq<Request>)
    requires PathRun(m, trace).Ok?
    ensures var r := PathRun(m, trace).value;
            var dirty := r.mem.l1.stats.dirtyEvictions - m.l1.stats.dirtyEvictions;
            && r.mem.latencies == m.latencies
            && TotalLatency(r.costs) == Weighted(m.latencies, |trace|, r.mem.l1.stats.misses - m.l1.stats.misses,
                                                 r.mem.l2.stats.misses - m.l2.stats.misses, dirty)
            && DirtyCount(r.costs) == dirty
  {
    hide CacheLatency, PathRun, Weighted, TotalLatency, DirtyCount;
    if trace == [] {
      NoCosts(m);
    } else {
      var init, last := trace[..|trace| - 1], trace[|trace| - 1];
      LastCost(m, trace);
      CostsAddUp(m, init);
      var before := PathRun(m, init).value;
      AccessCosts(before.mem, last.address, last.isWrite);
      var t := CacheLatency(before.mem, last.address, last.isWrite).value;
      LastCounts(before.costs, Cost(t.latency, t.dirtyEvictions));
      WeightedStep(m.latencies, |init|, before.mem.l1.stats.misses - m.l1.stats.misses,
        before.mem.l2.stats.misses - m.l2.stats.misses, before.mem.l1.stats.dirtyEvictions - m.l1.stats.dirtyEvictions,
        t.mem.l1.stats.misses - before.mem.l1.stats.misses, t.mem.l2.stats.misses - before.mem.l2.stats.misses,
        t.dirtyEvictions);
    }
  }

  lemma OneMore(x: nat, n: int, d: int)
    requires d in {0, 1}
    ensures x * (n + d) == x * n + (if d == 1 then x else 0)
  {
  }

  function TotalLatency(costs: seq<Cost>): nat {
    if costs == [] then 0 else TotalLatency(costs[..|costs| - 1]) + costs[|costs| - 1].latency
  }

  function DirtyCount(costs: seq<Cost>): nat {
    if costs == [] then 0 else DirtyCount(costs[..|costs| - 1]) + costs[|costs| - 1].dirtyEvictions
  }

  // ---------------------------------------------------------------------------------------------
  // By the request history, through two LRU caches

  /** The line of `q` was requested, and fewer than `assoc` other lines of its set since. */
  ghost predicate StillThere(c: CacheVal, trace: seq<Request>, address: nat)
    requires c.numSets > 0 && c.lineSize > 0
  {
    ReusedWithin(TagsOf(c, trace, SetIndex(c, address)), Tag(c, address), c.assoc)
  }

  /** What the L2 is asked for: reads of the lines the L1 has lost or never had. */
  ghost function Passed(c: CacheVal, trace: seq<Request>): seq<Request>
    requires c.numSets > 0 && c.lineSize > 0
  {
    if trace == [] then []
    else
      var init, last := trace[..|trace| - 1], trace[|trace| - 1];
      Passed(c, init) + (if StillThere(c, init, last.address) then [] else [Request(last.address, false)])
  }

  ghost predicate NewLru(c: CacheVal) {
    c.numSets > 0 && c.assoc > 0 && c.lineSize > 0 && FreshCache(c.numSets, c.assoc, c.lineSize, LRU) == Ok(c)
  }

  lemma LruServes(c: CacheVal, trace: seq<Request>, q: Request)
    requires NewLru(c)
    ensures Run(c, trace).Ok? && CacheAccess(Run(c, trace).value.cache, q.address, q.isWrite).Ok?
    ensures var o := CacheAccess(Run(c, trace).value.cache, q.address, q.isWrite).value;
            Run(c, trace + [q]).Ok? && o.cache == Run(c, trace + [q]).value.cache &&
            (o.result.hit <==> StillThere(c, trace, q.address))
  {
    hide ReusedWithin, CacheAccess, FreshCache;
    LruHitIff(c, trace, q);
    assert (trace + [q])[..|trace|] == trace;
  }

  lemma {:induction false} PathServes(m: MemVal, trace: seq<Request>)
    requires NewLru(m.l1) && NewLru(m.l2)
    ensures PathRun(m, trace).Ok? && Run(m.l1, trace).Ok? && Run(m.l2, Passed(m.l1, trace)).Ok?
    ensures var r := PathRun(m, trace).value;
            && r.mem.l1 == Run(m.l1, trace).value.cache && r.mem.l2 == Run(m.l2, Passed(m.l1, trace)).value.cache
            && r.mem.latencies == m.latencies
  {
    hide StillThere, CacheAccess, FreshCache, Run;
    if trace != [] {
      var init, last := trace[..|trace| - 1], trace[|trace| - 1];
      PathServes(m, init);
      LruServes(m.l1, init, last);
      LruServes(m.l2, Passed(m.l1, init), Request(last.address, false));
      assert trace == init + [last];
      PassedStep(m.l1, trace);
    } else {
      NothingRun(m.l1);
      NothingRun(m.l2);
    }
  }

  lemma PassedStep(c: CacheVal, trace: seq<Request>)
    requires c.numSets > 0 && c.lineSize > 0 && trace != []
    ensures var init, last := trace[..|trace| - 1], trace[|trace| - 1];
            Passed(c, trace) ==
            if StillThere(c, init, last.address) then Passed(c, init)
            else Passed(c, init) + [Request(last.address, false)]
  {
  }

  lemma NothingRun(c: CacheVal)
    ensures Run(c, []) == Ok(Ran(c, []))
  {
  }

  /** Latency by request history, from new LRU caches. A line the L1 still has costs the L1's latency; one it has lost
      but the L2 still has, the L2's in addition; any other, global memory's too. On an L1 miss that drops a line
      written since it was brought in, the writeback's is added and one dirty eviction counted. */
  lemma LatencyByHistory(m: MemVal, trace: seq<Request>, q: Request)
    requires NewLru(m.l1) && NewLru(m.l2)
    ensures Run(m.l1, trace).Ok? && Run(m.l1, trace + [q]).Ok? && PathRun(m, trace + [q]).Ok?
    ensures var before, after := Run(m.l1, trace).value.cache.sets, Run(m.l1, trace + [q]).value.cache.sets;
            var i := SetIndex(m.l1, q.address);
            && i < |before| == |after|
            && var dirty := DropsWritten(m.l1, trace, i, before[i].lines, after[i].lines);
               PathRun(m, trace + [q]).value.costs[|trace|] ==
               if StillThere(m.l1, trace, q.address) then Cost(m.latencies.l1, 0)
               else
                 var path := m.latencies.l1 + m.latencies.l2
                             + (if StillThere(m.l2, Passed(m.l1, trace), q.address) then 0 else m.latencies.global);
                 if dirty then Cost(path + m.latencies.writeback, 1) else Cost(path, 0)
  {
    hide StillThere, CacheAccess, Run, DropsWritten, SetIndex, FreshCache;
    PathServes(m, trace);
    LruServes(m.l1, trace, q);
    LruServes(m.l2, Passed(m.l1, trace), Request(q.address, false));
    DirtyEvictionIff(m.l1, LRU, trace, q);
    assert (trace + [q])[..|trace|] == trace;
  }

  // ---------------------------------------------------------------------------------------------
  // Lines never requested, and lines just requested

  /** No request of the trace lies in the line of `address`. */
  ghost predicate NeverAsked(c: CacheVal, trace: seq<Request>, address: nat)
    requires c.lineSize > 0
  {
    forall i :: 0 <= i < |trace| ==> LineOf(c, trace[i].address) != LineOf(c, address)
  }

  lemma {:induction false} NotAmongTags(c: CacheVal, trace: seq<Request>, address: nat)
    requires c.numSets > 0 && c.lineSize > 0 && NeverAsked(c, trace, address)
    ensures Tag(c, address) !in TagsOf(c, trace, SetIndex(c, address))
  {
    hide LineOf, SetIndex, Tag;
    if trace != [] {
      var init, last := trace[..|trace| - 1], trace[|trace| - 1];
      NotAmongTags(c, init, address);
      SetAndTagNameLine(c, last.address, address);
    }
  }

  lemma {:induction false} PassedAsked(c: CacheVal, d: CacheVal, trace: seq<Request>, address: nat)
    requires c.numSets > 0 && c.lineSize > 0 && d.lineSize > 0 && NeverAsked(d, trace, address)
    ensures NeverAsked(d, Passed(c, trace), address)
  {
    hide StillThere, LineOf;
    if trace != [] {
      PassedAsked(c, d, trace[..|trace| - 1], address);
    }
  }

  lemma ColdMisses(m: MemVal, trace: seq<Request>, address: nat)
    requires m.l1.numSets > 0 && m.l1.lineSize > 0 && m.l2.numSets > 0 && m.l2.lineSize > 0
    requires NeverAsked(m.l1, trace, address) && NeverAsked(m.l2, trace, address)
    ensures !StillThere(m.l1, trace, address) && !StillThere(m.l2, Passed(m.l1, trace), address)
  {
    hide SetIndex, TagsOf, Tag, NeverAsked, Passed;
    NotAmongTags(m.l1, trace, address);
    PassedAsked(m.l1, m.l2, trace, address);
    NotAmongTags(m.l2, Passed(m.l1, trace), address);
  }

  /** A line never requested before costs the whole path. */
  lemma ColdCosts(m: MemVal, trace: seq<Request>, q: Request)
    requires NewLru(m.l1) && NewLru(m.l2)
    requires NeverAsked(m.l1, trace, q.address) && NeverAsked(m.l2, trace, q.address)
    ensures PathRun(m, trace + [q]).Ok?
    ensures var c := PathRun(m, trace + [q]).value.costs[|trace|];
            && c.dirtyEvictions <= 1
            && c.latency == m.latencies.l1 + m.latencies.l2 + m.latencies.global
                            + (if c.dirtyEvictions == 1 then m.latencies.writeback else 0)
  {
    hide Run, DropsWritten, SetIndex, FreshCache, StillThere, PathRun, NeverAsked, Passed;
    LatencyByHistory(m, trace, q);
    ColdMisses(m, trace, q.address);
  }

  /** The very first request costs the whole path and evicts nothing. */
  lemma FirstCosts(m: MemVal, q: Request)
    requires NewLru(m.l1) && NewLru(m.l2)
    ensures PathRun(m, [q]).Ok?
    ensures PathRun(m, [q]).value.costs[0] == Cost(m.latencies.l1 + m.latencies.l2 + m.latencies.global, 0)
  {
    assert [] + [q] == [q];
    hide Run, SetIndex, FreshCache, StillThere, PathRun, NeverAsked, Passed, WrittenSinceFill;
    LatencyByHistory(m, [], q);
    assert NeverAsked(m.l1, [], q.address) &&
      NeverAsked(m.l2, [], q.address) by { NobodyAsked(m.l1, q.address); NobodyAsked(m.l2, q.address); }
    ColdMisses(m, [], q.address);
    NothingWritten(m.l1, q);
  }

  lemma NobodyAsked(c: CacheVal, address: nat)
    requires c.lineSize > 0
    ensures NeverAsked(c, [], address)
  {
  }

  lemma NothingWritten(c: CacheVal, q: Request)
    requires NewLru(c)
    ensures Run(c, []).Ok? && forall i, t :: !WrittenSinceFill(c, [], i, t)
  {
  }

  /** A line just requested costs the L1's latency only. */
  lemma WarmCosts(m: MemVal, trace: seq<Request>, p: Request, q: Request)
    requires NewLru(m.l1) && NewLru(m.l2) && LineOf(m.l1, p.address) == LineOf(m.l1, q.address)
    ensures PathRun(m, trace + [p] + [q]).Ok?
    ensures PathRun(m, trace + [p] + [q]).value.costs[|trace| + 1] == Cost(m.latencies.l1, 0)
  {
    hide Run, DropsWritten, FreshCache;
    LatencyByHistory(m, trace + [p], q);
    SetAndTagNameLine(m.l1, p.address, q.address);
    JustAsked(m.l1, trace, p);
  }

  lemma JustAsked(c: CacheVal, trace: seq<Request>, p: Request)
    requires c.numSets > 0 && c.lineSize > 0 && c.assoc > 0
    ensures ReusedWithin(TagsOf(c, trace + [p], SetIndex(c, p.address)), Tag(c, p.address), c.assoc)
  {
    var tags := TagsOf(c, trace + [p], SetIndex(c, p.address));
    assert (trace + [p])[..|trace|] == trace;
    assert LastAt(tags, |tags| - 1, Tag(c, p.address));
    assert tags[|tags|..] == [];
  }

  // ---------------------------------------------------------------------------------------------
  // Whole warps

  /** One request per line. */
  function Requests(lines: seq<nat>, isWrite: bool): (r: seq<Request>)
    ensures |r| == |lines|
  {
    seq(|lines|, i requires 0 <= i < |lines| => Request(lines[i], isWrite))
  }

  /** `n` is the slowest cost, and one at least. */
  ghost predicate Slowest(costs: seq<Cost>, n: nat) {
    && n >= 1 && (forall i :: 0 <= i < |costs| ==> costs[i].latency <= n)
    && (n == 1 || exists i :: 0 <= i < |costs| && costs[i].latency == n)
  }

  lemma {:induction false} PathFront(m: MemVal, q: Request, rest: seq<Request>)
    ensures var t := CacheLatency(m, q.address, q.isWrite);
            PathRun(m, [q] + rest) ==
            if t.Throw? then Throw(t.error)
            else
              var r := PathRun(t.value.mem, rest);
              if r.Throw? then r
              else Ok(PathRan(r.value.mem, [Cost(t.value.latency, t.value.dirtyEvictions)] + r.value.costs))
    decreases |rest|
  {
    hide CacheLatency;
    if rest == [] {
      assert [q] + rest == [q];
      OnlyOne(m, q);
      var t := CacheLatency(m, q.address, q.isWrite);
      if t.Ok? { assert [Cost(t.value.latency, t.value.dirtyEvictions)] + [] ==
        [Cost(t.value.latency, t.value.dirtyEvictions)]; }
    } else {
      var init, last := rest[..|rest| - 1], rest[|rest| - 1];
      PathFront(m, q, init);
      assert ([q] + rest)[..|rest|] == [q] + init;
      assert ([q] + rest)[|rest|] == last;
      var t := CacheLatency(m, q.address, q.isWrite);
      if t.Ok? && PathRun(t.value.mem, init).Ok? {
        var r := PathRun(t.value.mem, init).value;
        var u := CacheLatency(r.mem, last.address, last.isWrite);
        if u.Ok? {
          var x, y := Cost(t.value.latency, t.value.dirtyEvictions), Cost(u.value.latency, u.value.dirtyEvictions);
          assert [x] + (r.costs + [y]) == ([x] + r.costs) + [y];
        }
      }
    }
  }

  lemma OnlyOne(m: MemVal, q: Request)
    ensures PathRun(m, [q]) == match CacheLatency(m, q.address, q.isWrite)
                               case Throw(e) => Throw(e)
                               case Ok(t) => Ok(PathRan(t.mem, [Cost(t.latency, t.dirtyEvictions)]))
    ensures forall n :: PathRun(n, []) == Ok(PathRan(n, []))
  {
    hide CacheLatency;
    assert [q][..0] == [];
    assert PathRun(m, []) == Ok(PathRan(m, []));
    var t := CacheLatency(m, q.address, q.isWrite);
    if t.Ok? { assert [] + [Cost(t.value.latency, t.value.dirtyEvictions)] ==
      [Cost(t.value.latency, t.value.dirtyEvictions)]; }
  }

  /** The largest of `floor` and the costs. */
  function Largest(costs: seq<Cost>, floor: nat): nat
    decreases |costs|
  {
    if costs == [] then floor else Largest(costs[1..], Max(floor, costs[0].latency))
  }

  lemma {:induction false} LargestFacts(costs: seq<Cost>, floor: nat)
    ensures Largest(costs, floor) >= floor && forall i :: 0 <= i < |costs| ==> costs[i].latency <= Largest(costs, floor)
    ensures Largest(costs, floor) == floor || exists i :: 0 <= i < |costs| && costs[i].latency == Largest(costs, floor)
    decreases |costs|
  {
    if costs != [] {
      LargestFacts(costs[1..], Max(floor, costs[0].latency));
      assert forall i :: 1 <= i < |costs| ==> costs[i] == costs[1..][i - 1];
    }
  }

  lemma {:induction false} LinesCost(m: MemVal, lines: seq<nat>, isWrite: bool, latency: nat, dirty: nat)
    ensures var r := PathRun(m, Requests(lines, isWrite));
            ServiceLines(m, lines, isWrite, latency, dirty) ==
            if r.Throw? then Throw(r.error)
            else Ok(Timed(r.value.mem, Largest(r.value.costs, latency), dirty + FrontDirty(r.value.costs)))
    decreases |lines|
  {
    hide CacheLatency;
    if lines != [] {
      var t := CacheLatency(m, lines[0], isWrite);
      assert Requests(lines, isWrite) == [Request(lines[0], isWrite)] + Requests(lines[1..], isWrite);
      PathFront(m, Request(lines[0], isWrite), Requests(lines[1..], isWrite));
      if t.Ok? {
        LinesCost(t.value.mem, lines[1..], isWrite, Max(latency, t.value.latency), dirty + t.value.dirtyEvictions);
        var r := PathRun(t.value.mem, Requests(lines[1..], isWrite));
        if r.Ok? {
          assert ([Cost(t.value.latency, t.value.dirtyEvictions)] + r.value.costs)[1..] == r.value.costs;
        }
      }
    }
  }

  function FrontDirty(costs: seq<Cost>): nat
    decreases |costs|
  {
    if costs == [] then 0 else costs[0].dirtyEvictions + FrontDirty(costs[1..])
  }

  lemma {:induction false} SameCount(costs: seq<Cost>)
    ensures FrontDirty(costs) == DirtyCount(costs)
    decreases |costs|
  {
    if |costs| > 1 {
      var init := costs[..|costs| - 1];
      SameCount(costs[1..]);
      SameCount(init);
      SameCount(costs[1..][..|costs| - 2]);
      assert init[1..] == costs[1..][..|costs| - 2];
    } else if |costs| == 1 {
      assert costs[1..] == [] && costs[..0] == [];
    }
  }

  /** What a warp's access to global memory costs: its lines go through the caches one after another, and it takes as
      long as the slowest of them and one cycle for each further line; dirty evictions are counted over all. */
  lemma WarpCosts(m: MemVal, addresses: seq<nat>, isWrite: bool)
    requires addresses != [] && !Mixed(addresses) && !IsShared(addresses[0]) && ServiceWarp(m, addresses, isWrite).Ok?
    ensures var lines := Coalesce(addresses, m.l1.lineSize);
            && lines != [] && PathRun(m, Requests(lines, isWrite)).Ok?
            && var r, s := PathRun(m, Requests(lines, isWrite)).value, ServiceWarp(m, addresses, isWrite).value;
               && s.mem == r.mem && s.result.transactions == |lines| && s.result.bankConflicts == 0
               && s.result.dirtyEvictions == DirtyCount(r.costs)
               && s.result.latency >= |lines| && Slowest(r.costs, s.result.latency - (|lines| - 1))
  {
    hide PathRun, ServiceLines, Coalesce;
    var lines := Coalesce(addresses, m.l1.lineSize);
    SomeLine(addresses, m.l1.lineSize);
    LinesCost(m, lines, isWrite, 1, 0);
    var costs := PathRun(m, Requests(lines, isWrite)).value.costs;
    LargestFacts(costs, 1);
    SameCount(costs);
    assert Slowest(costs, Largest(costs, 1));
  }

  lemma SomeLine(addresses: seq<nat>, lineSize: nat)
    requires addresses != []
    ensures Coalesce(addresses, lineSize) != []
  {
    if lineSize > 0 { assert InsertSorted(LineBases(addresses[..|addresses| - 1], lineSize),
                        LineBase(addresses[|addresses| - 1], lineSize)) != []; }
  }

  /** A warp's access to shared memory takes the shared latency and one cycle for each bank conflict, and touches no
      cache. */
  lemma SharedCosts(m: MemVal, addresses: seq<nat>, isWrite: bool)
    requires addresses != [] && !Mixed(addresses) && IsShared(addresses[0])
    ensures ServiceWarp(m, addresses, isWrite).Ok?
    ensures var s := ServiceWarp(m, addresses, isWrite).value;
            && s.mem == m && s.result.transactions == |addresses| && s.result.dirtyEvictions == 0
            && s.result.latency - s.result.bankConflicts == m.latencies.shared
            && s.result.bankConflicts == BankConflicts(LocalAddresses(addresses), m.banks)
            && forall i :: 0 <= i < |addresses| ==> LocalAddresses(addresses)[i] + SHARED_MEM_BASE == addresses[i]
  {
    hide BankConflicts;
  }
}
