/** The GPU object: dispatch of a grid and the tick loop, over SM objects that share the L2 and global memory. */
module Gpus {
  import opened Common
  import opened Isa
  import opened CacheModel
  import opened MemoryModel
  import opened SmModel
  import opened GpuModel
  import opened Warps
  import opened Caches
  import opened Memories
  import opened MemorySystems
  import opened Schedulers
  import opened StreamingMultiprocessors

  /** What an SM is made of for good: itself, its scheduler, its L1 and its shared memory. */
  ghost function Static(sm: SM): set<object> {
    {sm} + sm.scheduler.Objects() + sm.l1.Repr() + {sm.shared.data}
  }

  /** Everything one SM owns. */
  ghost function Parts(sm: SM): set<object>
    reads sm
  {
    Static(sm) + set w: object | w in sm.warps
  }

  ghost predicate StaticApart(sm: SM) {
    && {sm} !! sm.scheduler.Objects() !! sm.l1.Repr() !! {sm.shared.data}
  }

  /** An SM whose own state is consistent. */
  ghost predicate GoodSm(sm: SM, banks: nat)
    reads sm, sm.l1
  {
    sm.Valid() && sm.l1.Valid() && sm.shared.numBanks == banks && StaticApart(sm)
  }

  ghost function CoreOf(sm: SM): CoreVal
    requires sm.l1.Valid()
    reads sm.l1, Parts(sm), sm
  {
    CoreVal(sm.Abs(), sm.shared.data[..], sm.l1.Abs())
  }

  /** Give an SM pending blocks, in order, while the next one fits. */
  method AdmitPending(sm: SM, pending: seq<ThreadBlock>, start: nat, limits: Limits, needs: Needs)
    returns (r: Result<nat>)
    requires sm.Valid() && start <= |pending|
    modifies sm
    ensures sm.Valid()
    ensures forall w :: w in sm.warps ==> w in old(sm.warps) || fresh(w)
    ensures match Admit(old(sm.Abs()), pending, start, limits, needs)
            case Ok(a) => r == Ok(a.next) && sm.Abs() == a.sm
            case Throw(e) => r == Throw(e)
  {
    hide SmModel.CanAdmit, SmModel.AllocateBlock;
    var next := start;
    while next < |pending|
      invariant next <= |pending| && sm.Valid()
      invariant forall w :: w in sm.warps ==> w in old(sm.warps) || fresh(w)
      invariant Admit(sm.Abs(), pending, next, limits, needs) == Admit(old(sm.Abs()), pending, start, limits, needs)
    {
      var fits := sm.CanAdmit(pending[next], limits, needs);
      if fits {
        sm.AllocateBlock(pending[next], needs);
        next := next + 1;
      } else {
        if sm.allocatedBlocks == 0 {
          return Throw(ImpossibleBlock);
        }
        return Ok(next);
      }
    }
    return Ok(next);
  }

  /** The SM a filling starts from: cleared at a launch, relieved of completed blocks in a run. */
  ghost function Prepared(s: SmVal, restart: bool): SmVal {
    if restart then SmModel.ClearWarps(s) else ReleaseCompleted(s)
  }

  method Restock(sm: SM, restart: bool, pending: seq<ThreadBlock>, start: nat, limits: Limits, needs: Needs)
    returns (r: Result<nat>)
    requires sm.Valid() && start <= |pending|
    modifies sm
    ensures sm.Valid()
    ensures forall w :: w in sm.warps ==> w in old(sm.warps) || fresh(w)
    ensures match Admit(Prepared(old(sm.Abs()), restart), pending, start, limits, needs)
            case Ok(a) => r == Ok(a.next) && sm.Abs() == a.sm
            case Throw(e) => r == Throw(e)
  {
    hide Admit, ReleaseCompleted, SmModel.ClearWarps;
    if restart {
      sm.ClearWarps();
    } else {
      sm.ReleaseCompletedBlocks();
    }
    r := AdmitPending(sm, pending, start, limits, needs);
  }

  /** No two SMs share an object, and none owns part of the L2 or of global memory. */
  ghost predicate Separate(sms: seq<SM>, common: set<object>) {
    && (forall i, j :: 0 <= i < j < |sms| ==> Static(sms[i]) !! Static(sms[j]))
    && (forall i :: 0 <= i < |sms| ==> Static(sms[i]) !! common)
  }

  /** No two SMs run the same warp. */
  ghost predicate WarpsApart(sms: seq<SM>)
    reads sms
  {
    forall i, j, w :: 0 <= i < j < |sms| && w in sms[i].warps ==> w !in sms[j].warps
  }

  lemma Alive(sm: SM)
    ensures forall o :: o in Parts(sm) ==> allocated(o)
    ensures Static(sm) <= Parts(sm) && sm in Static(sm) && sm.l1 in Static(sm) && sm.l1.Repr() <= Static(sm)
  {
  }

  lemma AliveCache(c: Cache)
    ensures forall o :: o in c.Repr() ==> allocated(o)
  {
  }

  /** Warps are no part of what an SM is made of. */
  lemma NoWarps(sm: SM)
    ensures forall w: Warp :: w !in Static(sm)
  {
    NoWarpsInCache(sm.l1);
  }

  lemma NoWarpsInCache(c: Cache)
    ensures forall w: Warp :: w !in c.Repr()
  {
  }

  /** The memory an SM's tick works on. */
  ghost function MemoryFor(sm: SM, l2: Cache, global: GlobalMemory, latencies: Latencies): MemVal
    requires sm.l1.Valid() && l2.Valid()
    reads sm.l1, l2, sm.l1.Repr(), l2.Repr(), sm.shared.data, global.data
  {
    MemVal(Data(sm.shared.data[..], global.data[..]), sm.shared.numBanks, sm.l1.Abs(), l2.Abs(), latencies)
  }

  /** Tick one SM on a memory system built for the occasion. */
  method TickSm(k: Code, sm: SM, l2: Cache, global: GlobalMemory, latencies: Latencies, ghost banks: nat)
    returns (r: Result<()>)
    requires GoodSm(sm, banks) && l2.Valid() && Static(sm) !! l2.Repr() + {global.data}
    modifies Parts(sm), l2.Repr(), global.data
    ensures GoodSm(sm, banks) && l2.Valid() && sm.warps == old(sm.warps)
    ensures match SmModel.Tick(k, old(sm.Abs()), old(MemoryFor(sm, l2, global, latencies)))
            case Ok(t) => r == Ok(()) && sm.Abs() == t.sm && MemoryFor(sm, l2, global, latencies) == t.mem
            case Throw(e) => r == Throw(e)
  {
    hide SmModel.Tick, Cache.Abs, Cache.Valid, Cache.SetAt;
    var memory := new MemorySystem(sm.shared, sm.l1, l2, global, latencies);
    assert sm.Abs() == old(sm.Abs()) && memory.Abs() == old(MemoryFor(sm, l2, global, latencies));
    r := sm.Tick(k, memory);
  }

  lemma NoGpuInCache(c: Cache)
    ensures forall g: GPU :: g !in c.Repr()
  {
  }

  lemma OneCoreTicks(k: Code, g: GpuVal, i: nat)
    requires i < |g.cores|
    ensures TickAll(k, g, i) ==
            if SmModel.IsCompleted(g.cores[i].sm.warps) then TickAll(k, g, i + 1)
            else match TickCore(k, g, i) case Ok(g') => TickAll(k, g', i + 1) case Throw(e) => Throw(e)
    ensures TickCore(k, g, i).Ok? ==>
              |TickCore(k, g, i).value.cores| == |g.cores| &&
              forall j :: 0 <= j < |g.cores| && j != i ==> TickCore(k, g, i).value.cores[j] == g.cores[j]
  {
    hide SmModel.Tick, SmModel.IsCompleted;
  }

  lemma OneMoreIteration(k: Code, g: GpuVal, left: nat)
    requires var run := GpuModel.RunToCompletion(k, g, left); run.Ok? ==> run.value.done
    ensures left > 0
    ensures GpuModel.RunToCompletion(k, g, left) ==
            match Iterate(k, g)
            case Throw(e) => Throw(e)
            case Ok(it) => if it.done then Ok(it) else GpuModel.RunToCompletion(k, it.gpu, left - 1)
  {
    hide Iterate;
  }

  class GPU {
    const sms: seq<SM>
    const l2: Cache
    const global: GlobalMemory
    const banks: nat
    const latencies: Latencies
    var limits: Limits
    var needs: Needs
    var pending: seq<ThreadBlock>
    var next: nat
    ghost var placement: seq<nat>

    /** The L2 and global memory, which all SMs share. */
    ghost function SharedParts(): set<object> { l2.Repr() + {global.data} }

    ghost predicate Valid()
      reads this, sms, set i | 0 <= i < |sms| :: sms[i].l1, l2
    {
      && l2.Valid() && global.data !in l2.Repr() && next <= |pending|
      && (forall i :: 0 <= i < |sms| ==> GoodSm(sms[i], banks))
      && Separate(sms, SharedParts()) && WarpsApart(sms)
    }

    ghost function Owned(): set<object>
      reads sms
    {
      set i, o | 0 <= i < |sms| && o in Parts(sms[i]) :: o
    }

    ghost function Cores(): (cs: seq<CoreVal>)
      requires forall i :: 0 <= i < |sms| ==> sms[i].l1.Valid()
      reads sms, set i | 0 <= i < |sms| :: sms[i].l1, Owned()
      ensures |cs| == |sms| && forall i :: 0 <= i < |sms| ==> cs[i] == CoreOf(sms[i])
    {
      seq(|sms|, i requires 0 <= i < |sms| && sms[i].l1.Valid()
                   reads sms, set i | 0 <= i < |sms| :: sms[i].l1, Owned() => CoreOf(sms[i]))
    }

    ghost function Abs(): (g: GpuVal)
      requires Valid()
      reads this, sms, set i | 0 <= i < |sms| :: sms[i].l1, l2, Owned(), SharedParts()
    {
      GpuVal(Cores(), l2.Abs(), global.data[..], banks, latencies, pending, next, limits, needs, placement)
    }

    constructor (sms: seq<SM>, l2: Cache, global: GlobalMemory, banks: nat, latencies: Latencies, limits: Limits,
                 needs: Needs)
      requires l2.Valid() && global.data !in l2.Repr() && (forall i :: 0 <= i < |sms| ==> GoodSm(sms[i], banks))
      requires Separate(sms, l2.Repr() + {global.data}) && WarpsApart(sms)
      ensures Valid() && this.sms == sms && this.l2 == l2 && this.global == global && this.banks == banks
      ensures this.latencies == latencies && pending == [] && next == 0 && placement == []
    {
      this.sms := sms;
      this.l2 := l2;
      this.global := global;
      this.banks := banks;
      this.latencies := latencies;
      this.limits := limits;
      this.needs := needs;
      pending := [];
      next := 0;
      placement := [];
    }

    ghost predicate AllGood()
      reads *
    {
      l2.Valid() && forall j :: 0 <= j < |sms| ==> GoodSm(sms[j], banks)
    }

    /** Every core but `i` is as in `cores`. */
    ghost predicate OthersAre(i: nat, cores: seq<CoreVal>)
      requires AllGood() && |cores| == |sms|
      reads *
    {
      forall j :: 0 <= j < |sms| && j != i ==> CoreOf(sms[j]) == cores[j]
    }

    /** What the GPU is made of lies in `frame`. */
    ghost predicate Inside(frame: set<object>)
      reads sms
    {
      SharedParts() <= frame && forall j :: 0 <= j < |sms| ==> Parts(sms[j]) <= frame
    }

    /** A host store to global memory, before a launch. */
    method StoreGlobal(address: nat, value: int, ghost frame: set<object>) returns (r: Result<()>)
      requires Valid() && Inside(frame)
      modifies global.data
      ensures Valid() && Inside(frame)
      ensures r == if address < |old(Abs()).global| then Ok(()) else Throw(OutOfRange)
      ensures Abs() == if r.Ok? then old(Abs()).(global := old(Abs()).global[address := value]) else old(Abs())
    {
      hide Separate, WarpsApart, Static, Cache.Repr, Cache.Abs, Cache.Valid, Cache.SetAt, SM.Abs, SM.Valid;
      AliveCache(l2);
      forall j | 0 <= j < |sms|
        ensures forall o :: o in Parts(sms[j]) ==> allocated(o)
        ensures global.data !in Parts(sms[j])
      {
        Alive(sms[j]);
        GlobalApart(j);
      }
      r := global.Store(address, value);
      assert forall j :: 0 <= j < |sms| ==> CoreOf(sms[j]) == old(CoreOf(sms[j]));
      assert Cores() == old(Cores());
    }

    lemma GlobalApart(j: nat)
      requires Valid() && j < |sms|
      ensures global.data !in Parts(sms[j])
    {
      assert Static(sms[j]) !! SharedParts();
    }

    /** Refill one SM's residency; the rest of the GPU is not touched. */
    method FillAlone(i: nat, restart: bool) returns (r: Result<nat>)
      requires Valid() && i < |sms|
      modifies sms[i]
      ensures forall j :: 0 <= j < |sms| && j != i ==> sms[j].warps == old(sms[j].warps)
      ensures forall w :: w in sms[i].warps ==> w in old(sms[i].warps) || fresh(w)
      ensures AllGood() && OthersAre(i, old(Cores()))
      ensures l2.Abs() == old(l2.Abs()) && global.data[..] == old(global.data[..])
      ensures match Admit(Prepared(old(Cores())[i].sm, restart), pending, next, limits, needs)
              case Ok(a) => r == Ok(a.next) && CoreOf(sms[i]) == old(Cores())[i].(sm := a.sm)
              case Throw(e) => r == Throw(e)
    {
      hide Admit, Prepared, Separate, WarpsApart, Static, Cache.Repr, Cache.Abs, Cache.Valid, Cache.SetAt, SM.Abs,
           SM.Valid;
      StaticOf(i);
      forall j | 0 <= j < |sms|
        ensures forall o :: o in Parts(sms[j]) ==> allocated(o)
        ensures j != i ==> sms[i] !in Parts(sms[j]) && sms[i] != sms[j]
      {
        Alive(sms[j]);
        if j != i { Untouched(i, j); }
      }
      NotShared(i);
      AliveCache(l2);
      AliveCache(sms[i].l1);
      r := Restock(sms[i], restart, pending, next, limits, needs);
    }

    /** Refill one SM and tell how far the grid is dispatched; who owns what stays in order. */
    method FillOne(i: nat, restart: bool) returns (r: Result<nat>)
      requires Valid() && i < |sms|
      modifies sms[i]
      ensures forall j :: 0 <= j < |sms| && j != i ==> sms[j].warps == old(sms[j].warps)
      ensures forall w :: w in sms[i].warps ==> w in old(sms[i].warps) || fresh(w)
      ensures Valid()
      ensures match Admit(Prepared(old(Cores())[i].sm, restart), pending, next, limits, needs)
              case Ok(a) => r == Ok(a.next) && Cores() == old(Cores())[i := old(Cores())[i].(sm := a.sm)]
              case Throw(e) => r == Throw(e)
      ensures l2.Abs() == old(l2.Abs()) && global.data[..] == old(global.data[..])
    {
      hide Admit, Prepared, Static, Separate, WarpsApart, CoreOf, Cache.Repr, Cache.Abs, Cache.Valid, Cache.SetAt,
           SM.Abs, SM.Valid;
      forall j | 0 <= j < |sms|
        ensures forall o :: o in Parts(sms[j]) ==> allocated(o)
      {
        Alive(sms[j]);
      }
      AlreadyApart();
      r := FillAlone(i, restart);
      NewWarpsApart(old(seq(|sms|, j requires 0 <= j < |sms| reads sms => sms[j].warps)), i);
      if r.Ok? {
        assert Cores() == old(Cores())[i := CoreOf(sms[i])];
      }
    }

    /** Note that SM `i` has been given the pending blocks up to `upTo`. */
    method Note(i: nat, upTo: nat)
      requires Valid() && next <= upTo <= |pending|
      modifies this`next, this`placement
      ensures Valid()
      ensures Abs() == old(Abs()).(next := upTo, placement := old(placement) + seq(upTo - old(next), _ => i))
    {
      hide Static, Separate, WarpsApart, CoreOf, Parts, GoodSm, Cache.Abs, Cache.Valid, Cache.SetAt;
      ThisApart();
      placement := placement + seq(upTo - next, _ => i);
      next := upTo;
    }

    /** Fill SM `i`, after clearing it at a launch or releasing its completed blocks in a run. */
    method FillSm(i: nat, restart: bool) returns (r: Result<()>)
      requires Valid() && i < |sms|
      modifies this`next, this`placement, sms[i]
      ensures forall j :: 0 <= j < |sms| && j != i ==> sms[j].warps == old(sms[j].warps)
      ensures forall w :: w in sms[i].warps ==> w in old(sms[i].warps) || fresh(w)
      ensures Valid()
      ensures match AdmitTo(old(Abs()), i, Prepared(old(Abs()).cores[i].sm, restart))
              case Ok(g) => r == Ok(()) && Abs() == g
              case Throw(e) => r == Throw(e)
    {
      hide Admit, Prepared, Static, Separate, WarpsApart, CoreOf, GoodSm, Parts, Cache.Repr, Cache.Abs, Cache.Valid,
           Cache.SetAt, SM.Abs, SM.Valid;
      var admitted :- FillOne(i, restart);
      Note(i, admitted);
      return Ok(());
    }

    lemma AlreadyApart()
      requires Valid()
      ensures forall a, b, w :: 0 <= a < b < |sms| && w in sms[a].warps ==> w !in sms[b].warps
    {
    }

    /** Warps nobody had before keep the SMs apart. */
    lemma NewWarpsApart(before: seq<seq<Warp>>, i: nat)
      requires |before| == |sms| && i < |sms|
      requires forall j :: 0 <= j < |sms| && j != i ==> sms[j].warps == before[j]
      requires forall a, b, w :: 0 <= a < b < |sms| && w in before[a] ==> w !in before[b]
      requires forall j, w :: 0 <= j < |sms| && j != i && w in sms[i].warps && w !in before[i] ==> w !in before[j]
      ensures WarpsApart(sms)
    {
    }

    /** Take over a grid and its requirements. */
    method Configure(grid: seq<ThreadBlock>, limits: Limits, needs: Needs, ghost frame: set<object>)
      requires Valid() && Inside(frame)
      modifies this
      ensures Valid() && Inside(frame)
      ensures Abs() == old(Abs()).(pending := grid, next := 0, limits := limits, needs := needs, placement := [])
    {
      hide Static, Parts, Separate, WarpsApart, CoreOf, GoodSm, Cache.Abs, Cache.Valid, Cache.SetAt;
      ThisApart();
      this.limits := limits;
      this.needs := needs;
      pending := grid;
      next := 0;
      placement := [];
    }

    /** `launch_kernel`: a new grid, dispatched to cleared SMs; the only objects the SMs gain are new. */
    method LaunchKernel(grid: seq<ThreadBlock>, limits: Limits, needs: Needs, ghost before: set<object>)
      returns (r: Result<()>, ghost frame: set<object>)
      requires Valid() && Inside(before)
      modifies this, sms
      ensures Valid() && Inside(frame) && fresh(frame - before)
      ensures match Launch(old(Abs()), grid, limits, needs)
              case Ok(g) => r == Ok(()) && Abs() == g
              case Throw(e) => r == Throw(e)
    {
      hide Admit, Static, Parts, Separate, WarpsApart, CoreOf, GoodSm, AdmitTo, SmModel.ClearWarps, ReleaseCompleted,
           Inside, Cache.Abs, Cache.Valid, Cache.SetAt, SM.Abs, SM.Valid;
      Configure(grid, limits, needs, before);
      frame := before;
      for i := 0 to |sms|
        invariant Valid() && Inside(frame) && fresh(frame - before)
        invariant DispatchFrom(Abs(), i) == Launch(old(Abs()), grid, limits, needs)
      {
        r, frame := FillWithin(i, true, frame);
        if r.Throw? {
          return;
        }
      }
      r := Ok(());
    }

    /** Phase 1 of an iteration; the only objects the SMs gain are new. */
    method LoadBlocks(ghost before: set<object>) returns (r: Result<()>, ghost frame: set<object>)
      requires Valid() && Inside(before)
      modifies this`next, this`placement, sms
      ensures Valid() && Inside(frame) && fresh(frame - before)
      ensures match Refill(old(Abs()), 0)
              case Ok(g) => r == Ok(()) && Abs() == g
              case Throw(e) => r == Throw(e)
    {
      hide Admit, Static, Parts, Separate, WarpsApart, CoreOf, GoodSm, AdmitTo, ReleaseCompleted, Inside, Cache.Abs,
           Cache.Valid, Cache.SetAt, SM.Abs, SM.Valid;
      frame := before;
      for i := 0 to |sms|
        invariant Valid() && Inside(frame) && fresh(frame - before)
        invariant Refill(Abs(), i) == Refill(old(Abs()), 0)
      {
        r, frame := FillWithin(i, false, frame);
        if r.Throw? {
          return;
        }
      }
      r := Ok(());
    }

    /** As FillSm, keeping account of the objects. */
    method FillWithin(i: nat, restart: bool, ghost before: set<object>)
      returns (r: Result<()>, ghost frame: set<object>)
      requires Valid() && i < |sms| && Inside(before)
      modifies this`next, this`placement, sms[i]
      ensures Valid() && Inside(frame) && before <= frame && fresh(frame - before)
      ensures match AdmitTo(old(Abs()), i, Prepared(old(Abs()).cores[i].sm, restart))
              case Ok(g) => r == Ok(()) && Abs() == g
              case Throw(e) => r == Throw(e)
    {
      hide Admit, Static, Separate, WarpsApart, CoreOf, GoodSm, AdmitTo, Prepared, Cache.Repr, Cache.Abs, Cache.Valid,
           Cache.SetAt, SM.Abs, SM.Valid;
      r := FillSm(i, restart);
      frame := before + set w: object | w in sms[i].warps;
    }

    /** SM `i` and the memories are where the tick `spec` leaves them. */
    ghost predicate CameTo(i: nat, spec: Result<Ticked>, r: Result<()>)
      requires AllGood() && i < |sms|
      reads *
    {
      match spec
      case Ok(t) => r == Ok(()) && sms[i].Abs() == t.sm && MemoryFor(sms[i], l2, global, latencies) == t.mem
      case Throw(e) => r == Throw(e)
    }

    /** Tick SM `i` on its own memories and the shared ones; the other cores are not touched. */
    method TickAlone(k: Code, i: nat) returns (r: Result<()>)
      requires Valid() && i < |sms|
      modifies Moves(i)
      ensures forall j :: 0 <= j < |sms| ==> Parts(sms[j]) == old(Parts(sms[j])) && sms[j].warps == old(sms[j].warps)
      ensures AllGood() && OthersAre(i, old(Cores()))
      ensures CameTo(i, SmModel.Tick(k, old(sms[i].Abs()), old(MemoryFor(sms[i], l2, global, latencies))), r)
    {
      hide SmModel.Tick, Separate, WarpsApart, MemoryFor, CoreOf, StaticApart, Static, Cache.Repr, Cache.Abs,
           Cache.Valid, Cache.SetAt, SM.Abs, SM.Valid;
      StaticOf(i);
      forall j | 0 <= j < |sms|
        ensures j != i ==> Moves(i) !! Parts(sms[j]) && sms[j] in Parts(sms[j]) && sms[j].l1 in Parts(sms[j])
      {
        if j != i { Unmoved(i, j); }
      }
      forall j | 0 <= j < |sms|
        ensures forall o :: o in Parts(sms[j]) ==> allocated(o)
      {
        Alive(sms[j]);
      }
      r := TickSm(k, sms[i], l2, global, latencies, banks);
    }

    /** A core and the memories, seen from the SM and seen from the GPU. */
    lemma SameView(i: nat)
      requires AllGood() && i < |sms|
      ensures var m := MemoryFor(sms[i], l2, global, latencies);
              && m == MemVal(Data(CoreOf(sms[i]).shared, global.data[..]), banks, CoreOf(sms[i]).l1, l2.Abs(),
                 latencies)
              && CoreOf(sms[i]) == CoreVal(sms[i].Abs(), m.data.shared, m.l1)
    {
    }

    /** The same for the GPU as a value. */
    method TickResident(k: Code, i: nat) returns (r: Result<()>)
      requires Valid() && i < |sms|
      modifies Moves(i)
      ensures Valid() && forall j :: 0 <= j < |sms| ==> Parts(sms[j]) == old(Parts(sms[j]))
      ensures match TickCore(k, old(Abs()), i)
              case Ok(g) => r == Ok(()) && Abs() == g
              case Throw(e) => r == Throw(e)
    {
      hide SmModel.Tick, Separate, MemoryFor, CoreOf, Parts, Static, Cache.Abs, Cache.Valid, Cache.SetAt, SM.Abs,
           SM.Valid;
      ThisApart();
      SameView(i);
      r := TickAlone(k, i);
      SameView(i);
      assert Cores() == old(Cores())[i := CoreOf(sms[i])];
    }

    /** The objects a tick of SM `i` may change. */
    ghost function Moves(i: nat): set<object>
      requires i < |sms|
      reads sms[i]
    {
      Parts(sms[i]) + SharedParts()
    }

    lemma StaticOf(i: nat)
      requires Valid() && i < |sms|
      ensures Static(sms[i]) !! SharedParts() && sms[i] !in sms[i].l1.Repr() && sms[i] !in sms[i].scheduler.Objects()
      ensures forall w :: w in sms[i].warps ==> w !in Static(sms[i])
    {
      NoWarps(sms[i]);
    }

    lemma Unmoved(i: nat, j: nat)
      requires Valid() && i < |sms| && j < |sms| && i != j
      ensures Moves(i) !! Parts(sms[j]) && sms[j] in Parts(sms[j]) && sms[j].l1 in Parts(sms[j])
    {
      NoWarps(sms[i]);
      NoWarps(sms[j]);
      NoWarpsInCache(l2);
      if i < j { assert Static(sms[i]) !! Static(sms[j]); } else { assert Static(sms[j]) !! Static(sms[i]); }
      assert Static(sms[j]) !! SharedParts();
    }

    /** Whether SM `i` has nothing to do. */
    method IsIdle(i: nat, ghost frame: set<object>) returns (idle: bool)
      requires Valid() && i < |sms| && Inside(frame)
      ensures Valid() && Inside(frame) && Abs() == old(Abs())
      ensures idle <==> SmModel.IsCompleted(Abs().cores[i].sm.warps)
    {
      hide SmModel.IsCompleted, Cache.Abs, Cache.Valid, Cache.SetAt;
      idle := sms[i].IsCompleted();
    }

    /** Tick SM `i` if it has work. */
    method TickIfBusy(k: Code, i: nat, ghost frame: set<object>) returns (r: Result<bool>)
      requires Valid() && i < |sms| && Inside(frame)
      modifies frame
      ensures Valid() && Inside(frame)
      ensures var idle := SmModel.IsCompleted(old(Abs()).cores[i].sm.warps);
              match if idle then Ok(old(Abs())) else TickCore(k, old(Abs()), i)
              case Ok(g) => r == Ok(idle) && Abs() == g
              case Throw(e) => r == Throw(e)
    {
      hide TickCore, Static, Parts, Separate, WarpsApart, CoreOf, GoodSm, SmModel.IsCompleted, Cache.Abs, Cache.Valid,
           Cache.SetAt, SM.Abs, SM.Valid;
      var done := IsIdle(i, frame);
      if done {
        return Ok(true);
      }
      var _ :- TickResident(k, i);
      return Ok(false);
    }

    /** Phase 2: tick every SM that has work; the result says whether none had. */
    method TickSms(k: Code, ghost frame: set<object>) returns (r: Result<bool>)
      requires Valid() && Inside(frame)
      modifies frame
      ensures Valid() && Inside(frame)
      ensures match TickAll(k, old(Abs()), 0)
              case Ok(g) => r == Ok(AllCompleted(old(Abs()))) && Abs() == g
              case Throw(e) => r == Throw(e)
    {
      hide TickCore, Static, Parts, Separate, WarpsApart, CoreOf, GoodSm, Inside, Cache.Abs, Cache.Valid, Cache.SetAt,
           SM.Abs, SM.Valid, SmModel.IsCompleted;
      ghost var before := Abs();
      var allDone := true;
      for i := 0 to |sms|
        invariant Valid() && Inside(frame)
        invariant TickAll(k, Abs(), i) == TickAll(k, before, 0)
        invariant forall j :: i <= j < |sms| ==> Abs().cores[j] == before.cores[j]
        invariant allDone <==> forall j :: 0 <= j < i ==> SmModel.IsCompleted(before.cores[j].sm.warps)
      {
        OneCoreTicks(k, Abs(), i);
        var idle :- TickIfBusy(k, i, frame);
        allDone := allDone && idle;
      }
      return Ok(allDone);
    }

    /** One iteration of the loop; the result says whether no SM had work. */
    method RunIteration(k: Code, ghost before: set<object>) returns (r: Result<bool>, ghost frame: set<object>)
      requires Valid() && Inside(before)
      modifies this`next, this`placement, before
      ensures Valid() && Inside(frame) && fresh(frame - before)
      ensures match Iterate(k, old(Abs()))
              case Ok(it) => r == Ok(it.done) && Abs() == it.gpu
              case Throw(e) => r == Throw(e)
    {
      hide Refill, TickAll, AllCompleted, Parts, Static, Separate, WarpsApart, CoreOf, GoodSm, Cache.Abs, Cache.Valid,
           Cache.SetAt, SM.Abs, SM.Valid;
      SmsWithin(before);
      var loaded: Result<()>;
      loaded, frame := LoadBlocks(before);
      if loaded.Throw? {
        return Throw(loaded.error), frame;
      }
      r := TickSms(k, frame);
    }

    lemma SmsWithin(frame: set<object>)
      requires Inside(frame)
      ensures forall i :: 0 <= i < |sms| ==> sms[i] in frame
    {
      forall i | 0 <= i < |sms|
        ensures sms[i] in frame
      {
        assert sms[i] in Parts(sms[i]);
      }
    }

    /** `run_to_completion`: iterate until no SM has work.  `bound` is a number of iterations the run does not exceed;
        GpuTermination provides one for every launch it covers. */
    method RunToCompletion(k: Code, ghost bound: nat, ghost before: set<object>) returns (r: Result<()>)
      requires Valid() && Inside(before)
      requires var run := GpuModel.RunToCompletion(k, Abs(), bound); run.Ok? ==> run.value.done
      modifies this`next, this`placement, before
      ensures Valid()
      ensures match GpuModel.RunToCompletion(k, old(Abs()), bound)
              case Ok(it) => r == Ok(()) && Abs() == it.gpu
              case Throw(e) => r == Throw(e)
    {
      hide Iterate, Inside, Parts, Static, Separate, WarpsApart, CoreOf, GoodSm, Cache.Abs, Cache.Valid, Cache.SetAt,
           SM.Abs, SM.Valid;
      ghost var run := GpuModel.RunToCompletion(k, Abs(), bound);
      ghost var left, frame := bound, before;
      var allDone := false;
      while !allDone
        invariant Valid() && Inside(frame) && fresh(frame - before)
        invariant run == if allDone then Ok(Iterated(Abs(), true)) else GpuModel.RunToCompletion(k, Abs(), left)
        decreases left, !allDone
      {
        OneMoreIteration(k, Abs(), left);
        var step: Result<bool>;
        step, frame := RunIteration(k, frame);
        if step.Throw? {
          return Throw(step.error);
        }
        allDone := step.value;
        left := left - 1;
      }
      return Ok(());
    }

    /** The GPU itself is no part of what it holds. */
    lemma ThisApart()
      ensures this !in Owned() && this !in SharedParts() && forall i :: 0 <= i < |sms| ==> this !in sms[i].l1.Repr()
    {
      NoGpuInCache(l2);
      forall i | 0 <= i < |sms|
        ensures this !in Parts(sms[i]) && this !in sms[i].l1.Repr()
      {
        NoGpuInCache(sms[i].l1);
      }
    }

    lemma Untouched(i: nat, j: nat)
      requires Valid() && i < |sms| && j < |sms| && i != j
      ensures sms[i] !in Parts(sms[j]) && sms[i] != sms[j]
    {
      if i < j { assert Static(sms[i]) !! Static(sms[j]); } else { assert Static(sms[j]) !! Static(sms[i]); }
      assert sms[i] in Static(sms[i]) && sms[j] in Static(sms[j]);
    }

    lemma NotShared(i: nat)
      requires Valid() && i < |sms|
      ensures sms[i] !in SharedParts()
    {
      assert Static(sms[i]) !! SharedParts();
      assert sms[i] in Static(sms[i]);
    }
  }

  // ---------------------------------------------------------------------------------------------
  // Construction

  datatype CacheShape = CacheShape(sets: nat, associativity: nat, lineSize: nat, policy: PolicyName)

  datatype SystemConfig = SystemConfig(
    numSms: nat, warpSize: nat, blockSize: nat, l1: CacheShape, l2: CacheShape, globalSize: nat, banks: nat,
      scheduler: SchedulerName,
    latencies: Latencies, limits: Limits, needs: Needs)

  /** An SM before any launch. */
  ghost function FreshCore(config: SystemConfig, l1: CacheVal): CoreVal {
    CoreVal(SmVal([], [], NOTHING, 0, FreshScheduler(config.scheduler)), seq(config.limits.sharedMemory, _ => 0), l1)
  }

  method MakeSm(config: SystemConfig, l1: Cache) returns (sm: SM)
    requires l1.Valid()
    ensures sm.l1 == l1 && fresh(Static(sm) - l1.Repr()) && GoodSm(sm, config.banks) && sm.warps == []
    ensures CoreOf(sm) == FreshCore(config, old(l1.Abs()))
  {
    hide Cache.Abs, Cache.Valid, Cache.SetAt, FreshScheduler;
    AliveCache(l1);
    var shared := new SharedMemory(config.limits.sharedMemory, config.banks);
    var scheduler := CreateScheduler(config.scheduler);
    sm := new SM(scheduler, l1, shared);
  }

  /** The SMs of a configuration, each with caches and memories of its own. */
  method MakeSms(config: SystemConfig) returns (r: Result<seq<SM>>)
    ensures var l1 := FreshCache(config.l1.sets, config.l1.associativity, config.l1.lineSize, config.l1.policy);
            if config.numSms > 0 && l1.Throw? then r == Throw(l1.error)
            else
              && r.Ok? && |r.value| == config.numSms && Separate(r.value, {})
              && forall i :: 0 <= i < config.numSms ==>
                   && fresh(Static(r.value[i])) && GoodSm(r.value[i], config.banks) && r.value[i].warps == []
                   && CoreOf(r.value[i]) == FreshCore(config, l1.value)
  {
    hide FreshCache, Static, StaticApart, Cache.Repr, Cache.Abs, Cache.Valid, Cache.SetAt, FreshCore, CoreOf, SM.Valid;
    var sms: seq<SM> := [];
    ghost var l1 := FreshCache(config.l1.sets, config.l1.associativity, config.l1.lineSize, config.l1.policy);
    while |sms| < config.numSms
      invariant |sms| <= config.numSms && Separate(sms, {})
      invariant sms != [] ==> l1.Ok?
      invariant forall i :: 0 <= i < |sms| ==>
                  && fresh(Static(sms[i])) && GoodSm(sms[i], config.banks) && sms[i].warps == []
                  && CoreOf(sms[i]) == FreshCore(config, l1.value)
    {
      forall i | 0 <= i < |sms|
        ensures forall o :: o in Parts(sms[i]) ==> allocated(o)
        ensures Static(sms[i]) <= Parts(sms[i]) && sms[i] in Static(sms[i]) && sms[i].l1 in Static(sms[i])
      {
        Alive(sms[i]);
      }
      var cache :- MakeCache(config.l1.sets, config.l1.associativity, config.l1.lineSize, config.l1.policy);
      var sm := MakeSm(config, cache);
      Alive(sm);
      assert fresh(Static(sm));
      sms := sms + [sm];
    }
    return Ok(sms);
  }

  lemma Refusal(c: CacheShape)
    ensures ShapedCache(c).Throw? ==> ShapedCache(c).error == BadDimensions
  {
  }

  function ShapedCache(c: CacheShape): Result<CacheVal> { FreshCache(c.sets, c.associativity, c.lineSize, c.policy) }

  /** The GPU of a configuration before any launch; a cache dimension of zero is refused. */
  method MakeGpu(config: SystemConfig) returns (r: Result<GPU>, ghost frame: set<object>)
    ensures r.Ok? <==> ShapedCache(config.l2).Ok? && (config.numSms > 0 ==> ShapedCache(config.l1).Ok?)
    ensures r.Throw? ==> r.error == BadDimensions
    ensures r.Ok? ==>
              && fresh(r.value) && r.value.Valid() && fresh(frame) && r.value.Inside(frame)
              && |r.value.Abs().cores| == config.numSms
              && (forall i :: 0 <= i < config.numSms ==>
                 r.value.Abs().cores[i] == FreshCore(config, ShapedCache(config.l1).value))
              && r.value.Abs().l2 == ShapedCache(config.l2).value
              && r.value.Abs().global == seq(config.globalSize, _ => 0)
              && r.value.Abs().latencies == config.latencies && r.value.Abs().banks == config.banks
              && r.value.Abs().pending == [] && r.value.Abs().next == 0
  {
    hide FreshCache, Static, StaticApart, FreshCore, CoreOf, Separate, Cache.Repr, Cache.Abs, Cache.Valid, Cache.SetAt,
         SM.Valid;
    Refusal(config.l1);
    Refusal(config.l2);
    frame := {};
    var l2 := MakeCache(config.l2.sets, config.l2.associativity, config.l2.lineSize, config.l2.policy);
    if l2.Throw? {
      return Throw(l2.error), {};
    }
    AliveCache(l2.value);
    var global := new GlobalMemory(config.globalSize);
    ghost var common := l2.value.Repr() + {global.data};
    var sms := MakeSms(config);
    if sms.Throw? {
      return Throw(sms.error), {};
    }
    AddCommon(sms.value, common);
    frame := Union(Statics(sms.value)) + common;
    forall i | 0 <= i < |sms.value|
      ensures Parts(sms.value[i]) == Static(sms.value[i])
    {
      WarplessParts(sms.value[i]);
    }
    var gpu := Assemble(config, sms.value, l2.value, global);
    r := Ok(gpu);
  }

  ghost function Union(parts: seq<set<object>>): set<object> { set i, o | 0 <= i < |parts| && o in parts[i] :: o }

  ghost function Statics(sms: seq<SM>): (parts: seq<set<object>>)
    ensures |parts| == |sms| && forall i :: 0 <= i < |sms| ==> parts[i] == Static(sms[i])
  {
    seq(|sms|, i requires 0 <= i < |sms| => Static(sms[i]))
  }

  lemma WarplessParts(sm: SM)
    requires sm.warps == []
    ensures Parts(sm) == Static(sm)
  {
    hide Static;
  }

  lemma AddCommon(sms: seq<SM>, common: set<object>)
    requires Separate(sms, {}) && forall i :: 0 <= i < |sms| ==> Static(sms[i]) !! common
    ensures Separate(sms, common)
  {
    hide Static;
  }

  /** A GPU of separate idle parts. */
  method Assemble(config: SystemConfig, sms: seq<SM>, l2: Cache, global: GlobalMemory) returns (gpu: GPU)
    requires l2.Valid() && global.data !in l2.Repr() && Separate(sms, l2.Repr() + {global.data})
    requires forall i :: 0 <= i < |sms| ==> GoodSm(sms[i], config.banks) && sms[i].warps == []
    ensures fresh(gpu) && gpu.Valid() && gpu.sms == sms && gpu.l2 == l2 && gpu.global == global
    ensures forall i :: 0 <= i < |sms| ==> gpu.Abs().cores[i] == old(CoreOf(sms[i]))
    ensures gpu.Abs().l2 == old(l2.Abs()) && gpu.Abs().global == old(global.data[..])
    ensures gpu.Abs().latencies == config.latencies && gpu.Abs().banks == config.banks
    ensures gpu.Abs().pending == [] && gpu.Abs().next == 0
  {
    hide Static, StaticApart, CoreOf, Separate, Cache.Repr, Cache.Abs, Cache.Valid, Cache.SetAt, SM.Valid;
    AliveCache(l2);
    forall i | 0 <= i < |sms|
      ensures forall o :: o in Parts(sms[i]) ==> allocated(o)
    {
      Alive(sms[i]);
    }
    gpu := new GPU(sms, l2, global, config.banks, config.latencies, config.limits, config.needs);
  }
}
