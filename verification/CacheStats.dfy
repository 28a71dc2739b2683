/** Conservation laws of the cache statistics, for every replacement policy. */
module CacheStats {
  import opened Common
  import opened Sequences
  import opened CacheModel
  import opened CacheRuns

  function Bit(b: bool): nat { if b then 1 else 0 }

  function ValidBits(lines: seq<Line>): seq<nat> {
    seq(|lines|, i requires 0 <= i < |lines| => Bit(lines[i].valid))
  }

  function DirtyBits(lines: seq<Line>): seq<nat> {
    seq(|lines|, i requires 0 <= i < |lines| => Bit(lines[i].dirty))
  }

  function ValidCounts(sets: seq<SetVal>): seq<nat> {
    seq(|sets|, i requires 0 <= i < |sets| => Sum(ValidBits(sets[i].lines)))
  }

  function DirtyCounts(sets: seq<SetVal>): seq<nat> {
    seq(|sets|, i requires 0 <= i < |sets| => Sum(DirtyBits(sets[i].lines)))
  }

  /** How many valid lines a cache holds. */
  function ValidLines(c: CacheVal): nat { Sum(ValidCounts(c.sets)) }

  /** How many dirty lines a cache holds. */
  function DirtyLines(c: CacheVal): nat { Sum(DirtyCounts(c.sets)) }

  /** No two valid ways share a tag, and only valid ways are dirty. */
  ghost predicate CleanSet(lines: seq<Line>) {
    && (forall i, j :: 0 <= i < j < |lines| && lines[i].valid && lines[j].valid ==> lines[i].tag != lines[j].tag)
    && (forall i :: 0 <= i < |lines| ==> lines[i].dirty ==> lines[i].valid)
  }

  /** The conservation laws, given how many writes the cache has served. */
  ghost predicate Conserved(c: CacheVal, writes: nat) {
    && c.stats.accesses == c.stats.hits + c.stats.misses
    && c.stats.misses == c.stats.evictions + ValidLines(c)
    && c.stats.dirtyEvictions + DirtyLines(c) <= writes
    && forall i :: 0 <= i < |c.sets| ==> CleanSet(c.sets[i].lines)
  }

  lemma BitsUpdate(lines: seq<Line>, way: nat, line: Line)
    requires way < |lines|
    ensures Sum(ValidBits(lines[way := line])) + Bit(lines[way].valid) == Sum(ValidBits(lines)) + Bit(line.valid)
    ensures Sum(DirtyBits(lines[way := line])) + Bit(lines[way].dirty) == Sum(DirtyBits(lines)) + Bit(line.dirty)
  {
    SumUpdate(ValidBits(lines), way, Bit(line.valid));
    SumUpdate(DirtyBits(lines), way, Bit(line.dirty));
    assert ValidBits(lines[way := line]) == ValidBits(lines)[way := Bit(line.valid)];
    assert DirtyBits(lines[way := line]) == DirtyBits(lines)[way := Bit(line.dirty)];
  }

  /** One set access: how the valid and dirty lines of the set change. */
  lemma SetConserves(s: SetVal, tag: nat, isWrite: bool)
    requires CleanSet(s.lines) && SetAccess(s, tag, isWrite).Ok?
    ensures var o := SetAccess(s, tag, isWrite).value;
            && CleanSet(o.set_.lines)
            && Sum(ValidBits(o.set_.lines)) + Bit(o.result.eviction) == Sum(ValidBits(s.lines)) + Bit(!o.result.hit)
            && Sum(DirtyBits(o.set_.lines)) + Bit(o.result.dirtyEviction) <= Sum(DirtyBits(s.lines)) + Bit(isWrite)
            && (o.result.hit ==> !o.result.eviction && !o.result.dirtyEviction)
            && (!isWrite && DirtyFree(s.lines) ==> DirtyFree(o.set_.lines) && !o.result.dirtyEviction)
  {
    hide OnAccess, ValidBits, DirtyBits, Sum;
    var way := FindWay(s.lines, tag, 0);
    if way < |s.lines| {
      BitsUpdate(s.lines, way, s.lines[way].(dirty := s.lines[way].dirty || isWrite));
    } else {
      var victim := ChooseVictim(s.policy, s.lines).value.0;
      BitsUpdate(s.lines, victim, Line(true, tag, isWrite));
    }
  }

  ghost predicate DirtyFree(lines: seq<Line>) { forall i :: 0 <= i < |lines| ==> !lines[i].dirty }

  lemma CountsUpdate(sets: seq<SetVal>, i: nat, s: SetVal)
    requires i < |sets|
    ensures Sum(ValidCounts(sets[i := s])) + Sum(ValidBits(sets[i].lines)) ==
            Sum(ValidCounts(sets)) + Sum(ValidBits(s.lines))
    ensures Sum(DirtyCounts(sets[i := s])) + Sum(DirtyBits(sets[i].lines)) ==
            Sum(DirtyCounts(sets)) + Sum(DirtyBits(s.lines))
  {
    SumUpdate(ValidCounts(sets), i, Sum(ValidBits(s.lines)));
    SumUpdate(DirtyCounts(sets), i, Sum(DirtyBits(s.lines)));
    assert ValidCounts(sets[i := s]) == ValidCounts(sets)[i := Sum(ValidBits(s.lines))];
    assert DirtyCounts(sets[i := s]) == DirtyCounts(sets)[i := Sum(DirtyBits(s.lines))];
  }

  /** Every access, under every policy, keeps the conservation laws. */
  lemma AccessConserves(c: CacheVal, writes: nat, address: nat, isWrite: bool)
    requires Conserved(c, writes) && CacheAccess(c, address, isWrite).Ok?
    ensures Conserved(CacheAccess(c, address, isWrite).value.cache, writes + Bit(isWrite))
  {
    var i := SetIndex(c, address);
    var s' := SetAccess(c.sets[i], Tag(c, address), isWrite).value.set_;
    SetConserves(c.sets[i], Tag(c, address), isWrite);
    CountsUpdate(c.sets, i, s');
  }

  function Writes(trace: seq<Request>): nat {
    if trace == [] then 0 else Writes(trace[..|trace| - 1]) + Bit(trace[|trace| - 1].isWrite)
  }

  lemma FreshConserved(numSets: nat, assoc: nat, lineSize: nat, name: PolicyName)
    requires numSets > 0 && assoc > 0 && lineSize > 0
    ensures Conserved(FreshCache(numSets, assoc, lineSize, name).value, 0)
  {
    var s := FreshSet(name, assoc);
    var sets := FreshCache(numSets, assoc, lineSize, name).value.sets;
    SumZero(ValidBits(s.lines));
    SumZero(DirtyBits(s.lines));
    SumZero(ValidCounts(sets));
    SumZero(DirtyCounts(sets));
  }

  /** A run of any cache built by the constructor, under any policy, never throws and conserves. */
  lemma {:induction false} RunConserves(c: CacheVal, name: PolicyName, trace: seq<Request>)
    requires FreshCache(c.numSets, c.assoc, c.lineSize, name) == Ok(c)
    ensures Run(c, trace).Ok? && Conserved(Run(c, trace).value.cache, Writes(trace))
    ensures Run(c, trace).value.cache.stats.accesses == |trace|
  {
    FreshConserved(c.numSets, c.assoc, c.lineSize, name);
    RunSucceeds(c, name, trace);
    if trace != [] {
      var init, last := trace[..|trace| - 1], trace[|trace| - 1];
      RunConserves(c, name, init);
      AccessConserves(Run(c, init).value.cache, Writes(init), last.address, last.isWrite);
    }
  }

  lemma RunSucceeds(c: CacheVal, name: PolicyName, trace: seq<Request>)
    requires FreshCache(c.numSets, c.assoc, c.lineSize, name) == Ok(c)
    ensures Run(c, trace).Ok?
  {
    match name
    case LRU =>
      FreshLru(c.numSets, c.assoc, c.lineSize);
      LruRun(c, seq(c.numSets, _ => []), trace);
    case FIFO =>
      FreshFifo(c.numSets, c.assoc, c.lineSize);
      FifoRun(c, seq(c.numSets, _ => []), trace);
    case RANDOM(_) =>
      RandomRun(c, trace);
  }

  ghost predicate RandomCache(c: CacheVal) {
    Sized(c) && forall i :: 0 <= i < c.numSets ==> c.sets[i].policy.Random?
  }

  lemma RandomRun(c: CacheVal, trace: seq<Request>)
    requires RandomCache(c)
    ensures Run(c, trace).Ok? && RandomCache(Run(c, trace).value.cache)
    ensures SameShape(Run(c, trace).value.cache, c) && Run(c, trace).value.cache.assoc == c.assoc
  {
    if trace != [] {
      RandomRun(c, trace[..|trace| - 1]);
    }
  }
}
