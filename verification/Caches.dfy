/** The cache object: its sets, one replacement policy per set, and its statistics. */
module Caches {
  import opened Common
  import opened CacheModel
  import opened Policies

  lemma HitOutcome(c: CacheVal, address: nat, isWrite: bool, way: nat)
    requires c.lineSize > 0 && c.numSets > 0 && |c.sets| == c.numSets
    requires var s := c.sets[SetIndex(c, address)];
             way < |s.lines| && FindWay(s.lines, Tag(c, address), 0) == way
    ensures var i := SetIndex(c, address);
            var s := c.sets[i];
            var line := s.lines[way];
            var hit := SetVal(s.lines[way := line.(dirty := line.dirty || isWrite)],
              CacheModel.OnAccess(s.policy, way));
            var stats := c.stats.(accesses := c.stats.accesses + 1, hits := c.stats.hits + 1);
            CacheAccess(c, address, isWrite) ==
            Ok(CacheOutcome(c.(sets := c.sets[i := hit], stats := stats),
                            AccessResult(true, false, false)))
  {
  }

  /** The statistics after a miss that replaces `was`. */
  function Missed(st: Stats, was: Line): Stats {
    Stats(st.accesses, st.hits, st.misses + 1,
          if was.valid then st.evictions + 1 else st.evictions,
          if was.valid && was.dirty then st.dirtyEvictions + 1 else st.dirtyEvictions)
  }

  /** What a miss comes to, once the policy has been asked for a victim. */
  lemma MissOutcome(c: CacheVal, address: nat, isWrite: bool)
    requires c.lineSize > 0 && c.numSets > 0 && |c.sets| == c.numSets
    requires var s := c.sets[SetIndex(c, address)]; FindWay(s.lines, Tag(c, address), 0) == |s.lines|
    ensures var i := SetIndex(c, address);
            var s := c.sets[i];
            match CacheModel.ChooseVictim(s.policy, s.lines)
            case Throw(e) => CacheAccess(c, address, isWrite) == Throw(e)
            case Ok((victim, policy)) =>
              if victim >= |s.lines| then CacheAccess(c, address, isWrite) == Throw(CorruptPolicy)
              else
                var was := s.lines[victim];
                var filled := SetVal(s.lines[victim := Line(true, Tag(c, address), isWrite)],
                  CacheModel.OnAccess(policy, victim));
                CacheAccess(c, address, isWrite) ==
                Ok(CacheOutcome(c.(sets := c.sets[i := filled],
                                   stats := Missed(c.stats.(accesses := c.stats.accesses + 1), was)),
                                AccessResult(false, was.valid, was.valid && was.dirty)))
  {
  }

  class Cache {
    const numSets: nat
    const associativity: nat
    const lineSize: nat
    var stats: Stats
    var sets: seq<seq<Line>>
    const policies: seq<Policy>

    ghost function Repr(): set<object> {
      {this} + set i | 0 <= i < |policies| :: policies[i].Object()
    }

    /** One policy object per set, none shared, and ways in every set. */
    ghost predicate Valid()
      reads this
    {
      && numSets > 0 && lineSize > 0 && |sets| == numSets && |policies| == numSets
      && (forall i :: 0 <= i < |sets| ==> |sets[i]| == associativity)
      && (forall i, j :: 0 <= i < j < |policies| ==> policies[i].Object() != policies[j].Object())
      && (forall i :: 0 <= i < |policies| ==> policies[i].Object() != this)
    }

    ghost function SetAt(i: nat): SetVal
      requires i < |sets| && i < |policies|
      reads this, Repr()
    {
      SetVal(sets[i], policies[i].Abs())
    }

    ghost function Abs(): (c: CacheVal)
      requires Valid()
      reads this, Repr()
      ensures c.numSets == numSets && c.assoc == associativity && c.lineSize == lineSize && c.stats == stats
      ensures |c.sets| == numSets && forall i :: 0 <= i < numSets ==> c.sets[i] == SetAt(i)
    {
      CacheVal(numSets, associativity, lineSize,
               seq(numSets, i requires 0 <= i < |sets| && i < |policies| reads this, Repr() => SetAt(i)), stats)
    }

    constructor (numSets: nat, associativity: nat, lineSize: nat, name: PolicyName)
      requires numSets > 0 && associativity > 0 && lineSize > 0
      ensures Valid() && fresh(Repr())
      ensures FreshCache(numSets, associativity, lineSize, name) == Ok(Abs())
    {
      this.numSets := numSets;
      this.associativity := associativity;
      this.lineSize := lineSize;
      stats := Stats(0, 0, 0, 0, 0);
      sets := seq(numSets, _ => seq(associativity, _ => EMPTY_LINE));
      var ps: seq<Policy> := [];
      while |ps| < numSets
        invariant |ps| <= numSets
        invariant forall i :: 0 <= i < |ps| ==> fresh(ps[i].Object())
        invariant forall i :: 0 <= i < |ps| ==> ps[i].Abs() == FreshPolicy(name, associativity)
        invariant forall i, j :: 0 <= i < j < |ps| ==> ps[i].Object() != ps[j].Object()
      {
        var p := MakePolicy(name, associativity);
        ps := ps + [p];
      }
      policies := ps;
      new;
      forall i | 0 <= i < numSets
        ensures policies[i].Object() != this
      {
        NotAPolicy(policies[i]);
      }
      assert forall i :: 0 <= i < numSets ==> SetAt(i) == FreshSet(name, associativity);
      assert Abs().sets == seq(numSets, _ => FreshSet(name, associativity));
    }

    lemma NotAPolicy(p: Policy)
      ensures p.Object() != this
    {
      match p
      case UseLru(_) =>
      case UseFifo(_) =>
      case UseRandom(_) =>
    }

    /** The hit branch: mark a written line dirty and tell the policy. */
    method Hit(i: nat, way: nat, isWrite: bool)
      requires Valid() && i < numSets && way < associativity
      modifies Repr()
      ensures Valid()
      ensures var c := old(Abs());
              var s := c.sets[i];
              var line := s.lines[way];
              Abs() == c.(sets := c.sets[i := SetVal(s.lines[way := line.(dirty := line.dirty || isWrite)],
                                                     CacheModel.OnAccess(s.policy, way))],
                          stats := c.stats.(hits := c.stats.hits + 1))
    {
      hide CacheModel.OnAccess, FreshPolicy;
      ghost var before := Abs();
      var lines, policy := sets[i], policies[i];
      stats := stats.(hits := stats.hits + 1);
      if isWrite {
        sets := sets[i := lines[way := lines[way].(dirty := true)]];
      }
      policy.OnAccess(way);
      assert lines[way := lines[way]] == lines;
      OneSetChanged(before, i, SetAt(i));
    }

    /** The miss branch: ask for a victim, count its eviction and fill its way. */
    method Fill(i: nat, tag: nat, isWrite: bool) returns (r: Result<AccessResult>)
      requires Valid() && i < numSets
      modifies Repr()
      ensures Valid()
      ensures var c := old(Abs());
              var s := c.sets[i];
              match CacheModel.ChooseVictim(s.policy, s.lines)
              case Throw(e) => r == Throw(e)
              case Ok((victim, policy)) =>
                if victim >= associativity then r == Throw(CorruptPolicy)
                else
                  var was := s.lines[victim];
                  && r == Ok(AccessResult(false, was.valid, was.valid && was.dirty))
                  && Abs() == c.(sets := c.sets[i := SetVal(s.lines[victim := Line(true, tag, isWrite)],
                                                            CacheModel.OnAccess(policy, victim))],
                                 stats := Missed(c.stats, was))
    {
      hide CacheModel.OnAccess, CacheModel.ChooseVictim, FreshPolicy;
      ghost var before := Abs();
      var lines, policy := sets[i], policies[i];
      stats := stats.(misses := stats.misses + 1);
      var victim :- policy.ChooseVictim(lines);
      if victim >= associativity {
        return Throw(CorruptPolicy);
      }
      var result := AccessResult(false, false, false);
      if lines[victim].valid {
        stats := stats.(evictions := stats.evictions + 1);
        result := result.(eviction := true);
        if lines[victim].dirty {
          stats := stats.(dirtyEvictions := stats.dirtyEvictions + 1);
          result := result.(dirtyEviction := true);
        }
      }
      sets := sets[i := lines[victim := Line(true, tag, isWrite)]];
      policy.OnAccess(victim);
      OneSetChanged(before, i, SetAt(i));
      return Ok(result);
    }

    lemma LinesAt(i: nat)
      requires Valid() && i < numSets
      ensures Abs().sets[i].lines == sets[i] && |sets[i]| == associativity
    {
    }

    method BeginAccess()
      requires Valid()
      modifies this`stats
      ensures Valid() && Abs() == old(Abs()).(stats := old(stats).(accesses := old(stats).accesses + 1))
    {
      ghost var before := Abs();
      stats := stats.(accesses := stats.accesses + 1);
      assert Abs().sets == before.sets;
    }

    method LookupAndFill(address: nat, isWrite: bool) returns (r: Result<AccessResult>)
      requires Valid()
      modifies Repr()
      ensures Valid()
      ensures match CacheAccess(old(Abs()), address, isWrite)
              case Ok(o) => r == Ok(o.result) && Abs() == o.cache
              case Throw(e) => r == Throw(e)
    {
      hide CacheAccess, CacheModel.OnAccess, CacheModel.ChooseVictim, FreshPolicy, Missed, SetAt;
      var lineAddress := address / lineSize;
      var setIndex := lineAddress % numSets;
      var tag := lineAddress / numSets;
      ghost var before := Abs();
      var lines := sets[setIndex];
      LinesAt(setIndex);
      BeginAccess();

      var way := 0;
      while way < associativity && !(lines[way].valid && lines[way].tag == tag)
        invariant way <= associativity
        invariant FindWay(lines, tag, way) == FindWay(lines, tag, 0)
      {
        way := way + 1;
      }
      if way < associativity {
        HitOutcome(before, address, isWrite, way);
        Hit(setIndex, way, isWrite);
        return Ok(AccessResult(true, false, false));
      }
      MissOutcome(before, address, isWrite);
      r := Fill(setIndex, tag, isWrite);
    }

    /** The cache differs from `before` in its statistics and in set `i` alone. */
    lemma OneSetChanged(before: CacheVal, i: nat, s: SetVal)
      requires Valid() && i < numSets && |before.sets| == numSets && s == SetAt(i)
      requires before.numSets == numSets && before.assoc == associativity && before.lineSize == lineSize
      requires forall j :: 0 <= j < numSets && j != i ==> SetAt(j) == before.sets[j]
      ensures Abs() == before.(sets := before.sets[i := s], stats := stats)
    {
      assert Abs().sets == before.sets[i := s];
    }

    method Access(address: nat) returns (r: Result<AccessResult>)
      requires Valid()
      modifies Repr()
      ensures Valid()
      ensures match CacheAccess(old(Abs()), address, false)
              case Ok(o) => r == Ok(o.result) && Abs() == o.cache
              case Throw(e) => r == Throw(e)
    {
      r := LookupAndFill(address, false);
    }

    method Write(address: nat) returns (r: Result<AccessResult>)
      requires Valid()
      modifies Repr()
      ensures Valid()
      ensures match CacheAccess(old(Abs()), address, true)
              case Ok(o) => r == Ok(o.result) && Abs() == o.cache
              case Throw(e) => r == Throw(e)
    {
      r := LookupAndFill(address, true);
    }
  }

  /** The constructor refuses a dimension of zero. */
  method MakeCache(numSets: nat, associativity: nat, lineSize: nat, name: PolicyName) returns (r: Result<Cache>)
    ensures r.Ok? ==> r.value.Valid() && fresh(r.value.Repr())
    ensures match FreshCache(numSets, associativity, lineSize, name)
            case Ok(c) => r.Ok? && r.value.Abs() == c
            case Throw(e) => r == Throw(e)
  {
    if numSets == 0 || associativity == 0 || lineSize == 0 {
      return Throw(BadDimensions);
    }
    var c := new Cache(numSets, associativity, lineSize, name);
    return Ok(c);
  }
}
