/** The replacement-policy objects. */
module Policies {
  import opened Common
  import opened CacheModel

  /** Scan for an invalid way, as every policy does before it evicts. */
  method FindInvalid(lines: seq<Line>) returns (way: nat)
    ensures way == FirstInvalid(lines, 0)
  {
    way := 0;
    while way < |lines| && lines[way].valid
      invariant way <= |lines|
      invariant FirstInvalid(lines, way) == FirstInvalid(lines, 0)
    {
      way := way + 1;
    }
  }

  /** The victim and the state after choosing it are those of the model. */
  ghost predicate ChoseVictim(before: PolicyVal, lines: seq<Line>, r: Result<nat>, after: PolicyVal) {
    match ChooseVictim(before, lines)
    case Ok(p) => r == Ok(p.0) && after == p.1
    case Throw(e) => r == Throw(e)
  }

  class LRUPolicy {
    var lruList: seq<nat>

    ghost function Abs(): PolicyVal
      reads this
    {
      Lru(lruList)
    }

    constructor (associativity: nat)
      ensures Abs() == FreshPolicy(LRU, associativity)
    {
      var ways: seq<nat> := [];
      while |ways| < associativity
        invariant |ways| <= associativity && ways == seq(|ways|, i => i)
      {
        ways := ways + [|ways|];
      }
      lruList := ways;
    }

    method ChooseVictim(lines: seq<Line>) returns (r: Result<nat>)
      ensures ChoseVictim(Abs(), lines, r, Abs())
    {
      if lruList == [] {
        return Throw(CorruptPolicy);
      }
      var way := FindInvalid(lines);
      if way < |lines| {
        return Ok(way);
      }
      return Ok(lruList[|lruList| - 1]);
    }

    method OnAccess(way: nat)
      modifies this
      ensures Abs() == CacheModel.OnAccess(old(Abs()), way)
    {
      var it := 0;
      while it < |lruList| && lruList[it] != way
        invariant it <= |lruList|
        invariant IndexOf(lruList, way, it) == IndexOf(lruList, way, 0)
      {
        it := it + 1;
      }
      if it < |lruList| {
        lruList := lruList[..it] + lruList[it + 1..];
        lruList := [way] + lruList;
        assert lruList == [way] + old(lruList)[..it] + old(lruList)[it + 1..];
      }
    }
  }

  class FIFOPolicy {
    var queue: seq<nat>
    var inQueue: seq<bool>

    ghost function Abs(): PolicyVal
      reads this
    {
      Fifo(queue, inQueue)
    }

    constructor (associativity: nat)
      ensures Abs() == FreshPolicy(FIFO, associativity)
    {
      queue := [];
      inQueue := seq(associativity, _ => false);
    }

    method ChooseVictim(lines: seq<Line>) returns (r: Result<nat>)
      modifies this
      ensures ChoseVictim(old(Abs()), lines, r, Abs())
    {
      var way := FindInvalid(lines);
      if way < |lines| {
        return Ok(way);
      }
      if queue == [] {
        return Throw(CorruptPolicy);
      }
      var victim := queue[0];
      if victim >= |inQueue| {
        return Throw(CorruptPolicy);
      }
      queue := queue[1..];
      inQueue := inQueue[victim := false];
      return Ok(victim);
    }

    method OnAccess(way: nat)
      modifies this
      ensures Abs() == CacheModel.OnAccess(old(Abs()), way)
    {
      if way < |inQueue| && !inQueue[way] {
        queue := queue + [way];
        inQueue := inQueue[way := true];
      }
    }
  }

  /** The generator is modelled by the draws it will deliver. */
  class RandomPolicy {
    var draws: seq<nat>

    ghost function Abs(): PolicyVal
      reads this
    {
      Random(draws)
    }

    constructor (draws: seq<nat>)
      ensures Abs() == FreshPolicy(RANDOM(draws), 0)
    {
      this.draws := draws;
    }

    method ChooseVictim(lines: seq<Line>) returns (r: Result<nat>)
      modifies this
      ensures ChoseVictim(old(Abs()), lines, r, Abs())
    {
      if lines == [] {
        return Throw(CorruptPolicy);
      }
      var way := FindInvalid(lines);
      if way < |lines| {
        return Ok(way);
      }
      if draws == [] {
        return Ok(0);
      }
      r := Ok(draws[0] % |lines|);
      draws := draws[1..];
    }
  }

  /** The policy a set holds: the source's virtual dispatch. */
  datatype Policy =
    | UseLru(lru: LRUPolicy)
    | UseFifo(fifo: FIFOPolicy)
    | UseRandom(random: RandomPolicy)
  {
    function Object(): object {
      match this
      case UseLru(p) => p
      case UseFifo(p) => p
      case UseRandom(p) => p
    }

    ghost function Abs(): PolicyVal
      reads Object()
    {
      match this
      case UseLru(p) => p.Abs()
      case UseFifo(p) => p.Abs()
      case UseRandom(p) => p.Abs()
    }

    method ChooseVictim(lines: seq<Line>) returns (r: Result<nat>)
      modifies Object()
      ensures ChoseVictim(old(Abs()), lines, r, Abs())
    {
      match this
      case UseLru(p) => r := p.ChooseVictim(lines);
      case UseFifo(p) => r := p.ChooseVictim(lines);
      case UseRandom(p) => r := p.ChooseVictim(lines);
    }

    method OnAccess(way: nat)
      modifies Object()
      ensures Abs() == CacheModel.OnAccess(old(Abs()), way)
    {
      match this
      case UseLru(p) => p.OnAccess(way);
      case UseFifo(p) => p.OnAccess(way);
      case UseRandom(_) =>
    }
  }

  method MakePolicy(name: PolicyName, associativity: nat) returns (p: Policy)
    ensures fresh(p.Object()) && p.Abs() == FreshPolicy(name, associativity)
  {
    match name
    case LRU =>
      var q := new LRUPolicy(associativity);
      p := UseLru(q);
    case FIFO =>
      var q := new FIFOPolicy(associativity);
      p := UseFifo(q);
    case RANDOM(draws) =>
      var q := new RandomPolicy(draws);
      p := UseRandom(q);
  }
}
