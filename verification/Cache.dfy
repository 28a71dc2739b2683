/** The values and step functions of one set-associative, write-allocate, write-back cache. */
module CacheModel {
  import opened Common

  datatype Line = Line(valid: bool, tag: nat, dirty: bool)

  const EMPTY_LINE := Line(false, 0, false)

  /** The state of a replacement policy.
      Lru: ways, most recently used first.  Fifo: ways in insertion order, with a membership flag per way.
      Random: the stream of draws its generator will still deliver. */
  datatype PolicyVal =
    | Lru(order: seq<nat>)
    | Fifo(queue: seq<nat>, inQueue: seq<bool>)
    | Random(draws: seq<nat>)

  datatype SetVal = SetVal(lines: seq<Line>, policy: PolicyVal)

  datatype Stats = Stats(accesses: nat, hits: nat, misses: nat, evictions: nat, dirtyEvictions: nat)

  datatype AccessResult = AccessResult(hit: bool, eviction: bool, dirtyEviction: bool)

  datatype CacheVal = CacheVal(numSets: nat, assoc: nat, lineSize: nat, sets: seq<SetVal>, stats: Stats)

  /** The first way from `i` on that holds `tag`, or the number of ways. */
  function FindWay(lines: seq<Line>, tag: nat, i: nat): (w: nat)
    requires i <= |lines|
    ensures i <= w <= |lines|
    ensures w < |lines| ==> lines[w].valid && lines[w].tag == tag
    ensures forall j :: i <= j < w ==> !(lines[j].valid && lines[j].tag == tag)
    decreases |lines| - i
  {
    if i == |lines| || (lines[i].valid && lines[i].tag == tag) then i else FindWay(lines, tag, i + 1)
  }

  /** The first invalid way from `i` on, or the number of ways. */
  function FirstInvalid(lines: seq<Line>, i: nat): (w: nat)
    requires i <= |lines|
    ensures i <= w <= |lines|
    ensures w < |lines| ==> !lines[w].valid
    ensures forall j :: i <= j < w ==> lines[j].valid
    decreases |lines| - i
  {
    if i == |lines| || !lines[i].valid then i else FirstInvalid(lines, i + 1)
  }

  /** The first position of `x` in `s` from `i` on, or the length of `s`. */
  function IndexOf(s: seq<nat>, x: nat, i: nat): (p: nat)
    requires i <= |s|
    ensures i <= p <= |s|
    ensures p < |s| ==> s[p] == x
    ensures forall j :: i <= j < p ==> s[j] != x
    decreases |s| - i
  {
    if i == |s| || s[i] == x then i else IndexOf(s, x, i + 1)
  }

  /** Move `way` to the front of a recency list that holds it. */
  function MoveToFront(order: seq<nat>, way: nat): seq<nat> {
    var p := IndexOf(order, way, 0);
    if p == |order| then order else [way] + order[..p] + order[p + 1..]
  }

  /** The way to replace and the policy state after choosing it. */
  function ChooseVictim(policy: PolicyVal, lines: seq<Line>): Result<(nat, PolicyVal)> {
    var invalid := FirstInvalid(lines, 0);
    match policy
    case Lru(order) =>
      if order == [] then Throw(CorruptPolicy)
      else if invalid < |lines| then Ok((invalid, policy))
      else Ok((order[|order| - 1], policy))
    case Fifo(queue, inQueue) =>
      if invalid < |lines| then Ok((invalid, policy))
      else if queue == [] then Throw(CorruptPolicy)
      else if queue[0] >= |inQueue| then Throw(CorruptPolicy)
      else Ok((queue[0], Fifo(queue[1..], inQueue[queue[0] := false])))
    case Random(draws) =>
      if lines == [] then Throw(CorruptPolicy)
      else if invalid < |lines| then Ok((invalid, policy))
      else if draws == [] then Ok((0, policy))
      else Ok((draws[0] % |lines|, Random(draws[1..])))
  }

  /** The policy state after `way` was hit or filled. */
  function OnAccess(policy: PolicyVal, way: nat): PolicyVal {
    match policy
    case Lru(order) => Lru(MoveToFront(order, way))
    case Fifo(queue, inQueue) =>
      if way < |inQueue| && !inQueue[way] then Fifo(queue + [way], inQueue[way := true]) else policy
    case Random(_) => policy
  }

  datatype SetOutcome = SetOutcome(set_: SetVal, result: AccessResult)

  /** One access to one set. */
  function SetAccess(s: SetVal, tag: nat, isWrite: bool): Result<SetOutcome> {
    var way := FindWay(s.lines, tag, 0);
    if way < |s.lines| then
      var line := s.lines[way];
      var lines := s.lines[way := line.(dirty := line.dirty || isWrite)];
      Ok(SetOutcome(SetVal(lines, OnAccess(s.policy, way)), AccessResult(true, false, false)))
    else
      var (victim, policy) :- ChooseVictim(s.policy, s.lines);
      if victim >= |s.lines| then Throw(CorruptPolicy)
      else
        var evicted := s.lines[victim];
        var lines := s.lines[victim := Line(true, tag, isWrite)];
        Ok(SetOutcome(SetVal(lines, OnAccess(policy, victim)),
                      AccessResult(false, evicted.valid, evicted.valid && evicted.dirty)))
  }

  function CountAccess(st: Stats, r: AccessResult): Stats {
    Stats(st.accesses + 1,
          if r.hit then st.hits + 1 else st.hits,
          if r.hit then st.misses else st.misses + 1,
          if r.eviction then st.evictions + 1 else st.evictions,
          if r.dirtyEviction then st.dirtyEvictions + 1 else st.dirtyEvictions)
  }

  function SetIndex(c: CacheVal, address: nat): nat
    requires c.lineSize > 0 && c.numSets > 0
  {
    (address / c.lineSize) % c.numSets
  }

  function Tag(c: CacheVal, address: nat): nat
    requires c.lineSize > 0 && c.numSets > 0
  {
    (address / c.lineSize) / c.numSets
  }

  datatype CacheOutcome = CacheOutcome(cache: CacheVal, result: AccessResult)

  /** `Cache::lookup_and_fill`. */
  function CacheAccess(c: CacheVal, address: nat, isWrite: bool): Result<CacheOutcome> {
    if c.lineSize == 0 || c.numSets == 0 || SetIndex(c, address) >= |c.sets| then Throw(BadDimensions)
    else
      var i := SetIndex(c, address);
      var o :- SetAccess(c.sets[i], Tag(c, address), isWrite);
      Ok(CacheOutcome(c.(sets := c.sets[i := o.set_], stats := CountAccess(c.stats, o.result)), o.result))
  }

  datatype PolicyName = LRU | FIFO | RANDOM(draws: seq<nat>)

  /** The state a freshly built policy starts in. */
  function FreshPolicy(name: PolicyName, assoc: nat): PolicyVal {
    match name
    case LRU => Lru(seq(assoc, i => i))
    case FIFO => Fifo([], seq(assoc, _ => false))
    case RANDOM(draws) => Random(draws)
  }

  function FreshSet(name: PolicyName, assoc: nat): SetVal {
    SetVal(seq(assoc, _ => EMPTY_LINE), FreshPolicy(name, assoc))
  }

  function FreshCache(numSets: nat, assoc: nat, lineSize: nat, name: PolicyName): Result<CacheVal> {
    if numSets == 0 || assoc == 0 || lineSize == 0 then Throw(BadDimensions)
    else Ok(CacheVal(numSets, assoc, lineSize, seq(numSets, _ => FreshSet(name, assoc)), Stats(0, 0, 0, 0, 0)))
  }
}
