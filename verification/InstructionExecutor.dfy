/** `InstructionExecutor::execute`: the opcode switch and its lane loops, on warp and memory objects. */
module InstructionExecutor {
  import opened Common
  import opened Isa
  import opened WarpModel
  import opened MemoryModel
  import opened ExecutorModel
  import opened ScalarModel
  import opened Warps
  import opened Caches
  import opened MemorySystems
  import Policies

  datatype ExecutionResult = ExecutionResult(status: Status, latency: nat)

  /** ADD, SUB, MUL, MOV and CMP: each active lane reads its registers and writes its result. */
  method ExecuteAlu(inst: Instruction, warp: Warp) returns (r: Result<ExecutionResult>)
    requires IsAlu(inst.opcode)
    modifies warp`threads, warp`pc
    ensures match AluLanes(inst, old(warp.threads), old(warp.mask), 0)
            case Ok(ts) => r == Ok(ExecutionResult(Done, 1)) && warp.threads == ts && warp.pc == old(warp.pc) + 1
            case Throw(e) => r == Throw(e)
  {
    for i := 0 to |warp.threads|
      invariant |warp.threads| == |old(warp.threads)| && warp.pc == old(warp.pc)
      invariant AluLanes(inst, warp.threads, warp.mask, i) == AluLanes(inst, old(warp.threads), warp.mask, 0)
    {
      if i in warp.mask {
        var t :- ExecuteLane(inst, warp.threads[i]);
        warp.threads := warp.threads[i := t];
      }
    }
    warp.pc := warp.pc + 1;
    return Ok(ExecutionResult(Done, 1));
  }

  /** The body of an arithmetic lane loop. */
  method ExecuteLane(inst: Instruction, t: Thread) returns (r: Result<Thread>)
    requires IsAlu(inst.opcode)
    ensures r == AluThread(inst, t)
  {
    if inst.opcode == MOV {
      if inst.src1 == -1 {
        return WriteReg(t, inst.dst, inst.immediate);
      }
      var v :- ReadReg(t, inst.src1);
      return WriteReg(t, inst.dst, v);
    }
    var a :- ReadReg(t, inst.src1);
    var b :- ReadReg(t, inst.src2);
    match inst.opcode
    case ADD => r := WriteReg(t, inst.dst, a + b);
    case SUB => r := WriteReg(t, inst.dst, a - b);
    case MUL => r := WriteReg(t, inst.dst, a * b);
    case CMP => r := Ok(t.(predicate_ := a == b));
  }

  /** The addresses a LOAD reads and the lanes that read them. */
  method LoadRequests(inst: Instruction, warp: Warp) returns (r: Result<(seq<nat>, seq<nat>)>)
    ensures match LoadAddresses(inst, warp.threads, warp.mask, 0)
            case Ok(a) => r == Ok((a, LaneList(warp.mask, 0, |warp.threads|)))
            case Throw(e) => r == Throw(e)
  {
    hide ExecutorModel.Address;
    var addresses: seq<nat> := [];
    var lanes: seq<nat> := [];
    ghost var n := |warp.threads|;
    NothingBefore(LoadAddresses(inst, warp.threads, warp.mask, 0));
    for i := 0 to |warp.threads|
      invariant LoadAddresses(inst, warp.threads, warp.mask, 0) ==
                Prepend(addresses, LoadAddresses(inst, warp.threads, warp.mask, i))
      invariant LaneList(warp.mask, 0, n) == lanes + LaneList(warp.mask, i, n)
    {
      if i in warp.mask {
        var address :- ExecutorModel.Address(warp.threads[i], inst.src1, inst.immediate);
        PrependOne(addresses, address, LoadAddresses(inst, warp.threads, warp.mask, i + 1));
        assert lanes + ([i] + LaneList(warp.mask, i + 1, n)) == lanes + [i] + LaneList(warp.mask, i + 1, n);
        addresses := addresses + [address];
        lanes := lanes + [i];
      }
    }
    NothingAfter(addresses);
    assert lanes + [] == lanes;
    return Ok((addresses, lanes));
  }

  /** Write the loaded values into the lanes that asked for them. */
  method ScatterLanes(dst: int, warp: Warp, lanes: seq<nat>, values: seq<int>) returns (r: Result<()>)
    requires lanes == LaneList(warp.mask, 0, |warp.threads|) && |values| == |lanes|
    modifies warp`threads
    ensures match Scatter(dst, old(warp.threads), warp.mask, values, 0)
            case Ok(ts) => r == Ok(()) && warp.threads == ts
            case Throw(e) => r == Throw(e)
  {
    hide WriteReg;
    ghost var p: nat := 0;
    ghost var n := |warp.threads|;
    for k := 0 to |lanes|
      invariant |warp.threads| == n && p <= n && lanes[k..] == LaneList(warp.mask, p, n)
      invariant Scatter(dst, warp.threads, warp.mask, values[k..], p) ==
                Scatter(dst, old(warp.threads), warp.mask, values, 0)
    {
      NextLane(warp.mask, p, n);
      SkipLanes(dst, warp.threads, warp.mask, values[k..], p, lanes[k..][0]);
      var lane := lanes[k];
      assert lanes[k..][1..] == lanes[k + 1..] && values[k..][1..] == values[k + 1..];
      var t :- WriteReg(warp.threads[lane], dst, values[k]);
      warp.threads := warp.threads[lane := t];
      p := lane + 1;
    }
    return Ok(());
  }

  lemma NextLane(mask: set<nat>, p: nat, n: nat)
    requires LaneList(mask, p, n) != []
    ensures var l := LaneList(mask, p, n)[0];
            && p <= l < n && l in mask && LaneList(mask, p, n)[1..] == LaneList(mask, l + 1, n)
            && forall i :: p <= i < l ==> i !in mask
    decreases n - p
  {
    if p !in mask {
      NextLane(mask, p + 1, n);
    }
  }

  lemma SkipLanes(dst: int, ts: seq<Thread>, mask: set<nat>, values: seq<int>, p: nat, l: nat)
    requires p <= l < |ts| && forall i :: p <= i < l ==> i !in mask
    ensures Scatter(dst, ts, mask, values, p) == Scatter(dst, ts, mask, values, l)
    decreases l - p
  {
    hide WriteReg;
    if p < l {
      SkipLanes(dst, ts, mask, values, p + 1, l);
    }
  }

  // ---------------------------------------------------------------------------------------------
  // STORE and ATOMIC_ADD

  /** How many lanes hit each address. */
  ghost predicate Counts(counts: map<nat, nat>, addresses: seq<nat>) {
    && (forall a :: a in counts ==> counts[a] == Count(addresses, a) > 0)
    && (forall a: nat :: a !in counts ==> Count(addresses, a) == 0)
  }

  lemma CountOne(counts: map<nat, nat>, addresses: seq<nat>, a: nat)
    requires Counts(counts, addresses)
    ensures Counts(counts[a := (if a in counts then counts[a] else 0) + 1], addresses + [a])
  {
    assert (addresses + [a])[..|addresses + [a]| - 1] == addresses;
    forall b: nat
      ensures Count(addresses + [a], b) == Count(addresses, b) + (if a == b then 1 else 0)
    {
    }
    hide Count;
  }

  lemma CountPositive(addresses: seq<nat>, i: nat)
    requires i < |addresses|
    ensures Count(addresses, addresses[i]) > 0
  {
    if i < |addresses| - 1 {
      CountPositive(addresses[..|addresses| - 1], i);
    }
  }

  lemma CountedOccurs(addresses: seq<nat>, a: nat) returns (i: nat)
    requires Count(addresses, a) > 0
    ensures i < |addresses| && addresses[i] == a
  {
    var last := |addresses| - 1;
    if addresses[last] == a {
      i := last;
    } else {
      i := CountedOccurs(addresses[..last], a);
    }
  }

  /** `MaxCollisions` is the largest count of any of the addresses. */
  lemma MaxCollisionsFacts(addresses: seq<nat>, n: nat)
    requires n <= |addresses|
    ensures forall i :: 0 <= i < n ==> Count(addresses, addresses[i]) <= MaxCollisions(addresses, n)
    ensures n > 0 ==> exists i :: 0 <= i < n && Count(addresses, addresses[i]) == MaxCollisions(addresses, n)
    ensures n == 0 ==> MaxCollisions(addresses, n) == 0
  {
    hide Count;
    if n > 0 {
      MaxCollisionsFacts(addresses, n - 1);
      if MaxCollisions(addresses, n) == Count(addresses, addresses[n - 1]) {
        assert 0 <= n - 1 < n;
      } else {
        assert n > 1 by { MaxCollisionsFacts(addresses, n - 1); }
        var i :| 0 <= i < n - 1 && Count(addresses, addresses[i]) == MaxCollisions(addresses, n - 1);
        assert 0 <= i < n;
      }
    }
  }

  lemma LargestCount(counts: map<nat, nat>, addresses: seq<nat>, m: nat)
    requires Counts(counts, addresses)
    requires forall a :: a in counts ==> counts[a] <= m
    requires m == 0 || exists a :: a in counts && counts[a] == m
    ensures MaxCollisions(addresses, |addresses|) == m
  {
    hide Count, MaxCollisions;
    MaxCollisionsFacts(addresses, |addresses|);
    if addresses != [] {
      var i :| 0 <= i < |addresses| && Count(addresses, addresses[i]) == MaxCollisions(addresses, |addresses|);
      CountPositive(addresses, i);
      assert addresses[i] in counts;
    }
    if m > 0 {
      var a :| a in counts && counts[a] == m;
      var i := CountedOccurs(addresses, a);
      assert Count(addresses, addresses[i]) == m;
    }
  }

  /** The extra cycles of the most contended address. */
  method LargestCollision(counts: map<nat, nat>, ghost addresses: seq<nat>) returns (stalls: nat)
    requires Counts(counts, addresses)
    ensures stalls == CollisionStalls(addresses)
  {
    hide Count, MaxCollisions;
    var maxCollisions: nat := 0;
    var rest := counts.Keys;
    while rest != {}
      invariant rest <= counts.Keys
      invariant forall a :: a in counts && a !in rest ==> counts[a] <= maxCollisions
      invariant maxCollisions == 0 || exists a :: a in counts && counts[a] == maxCollisions
      decreases |rest|
    {
      var a :| a in rest;
      if counts[a] > maxCollisions {
        maxCollisions := counts[a];
      }
      rest := rest - {a};
    }
    LargestCount(counts, addresses, maxCollisions);
    return if maxCollisions > 1 then maxCollisions - 1 else 0;
  }

  /** The addresses and values the active lanes send, and how many lanes hit each address. */
  method StoreRequests(inst: Instruction, warp: Warp) returns (r: Result<(seq<nat>, seq<int>, map<nat, nat>)>)
    ensures r.Ok? ==> |r.value.0| == |r.value.1| && Counts(r.value.2, r.value.0)
    ensures match WriteRequests(inst, warp.threads, warp.mask, 0)
            case Ok(w) => r.Ok? && Zip(r.value.0, r.value.1) == w
            case Throw(e) => r == Throw(e)
  {
    hide Count, WriteRequest;
    var addresses: seq<nat> := [];
    var values: seq<int> := [];
    var counts: map<nat, nat> := map[];
    NothingCounted();
    NothingBefore(WriteRequests(inst, warp.threads, warp.mask, 0));
    assert Zip(addresses, values) == [];
    for i := 0 to |warp.threads|
      invariant |addresses| == |values| && Counts(counts, addresses)
      invariant WriteRequests(inst, warp.threads, warp.mask, 0) ==
                Prepend(Zip(addresses, values), WriteRequests(inst, warp.threads, warp.mask, i))
    {
      if i in warp.mask {
        OneRequest(inst, warp.threads[i]);
        var address :- ExecutorModel.Address(warp.threads[i], inst.src2, inst.immediate);
        var value :- ReadReg(warp.threads[i], inst.src1);
        PrependOne(Zip(addresses, values), Write(address, value), WriteRequests(inst, warp.threads, warp.mask, i + 1));
        assert Zip(addresses + [address], values + [value]) == Zip(addresses, values) + [Write(address, value)];
        CountOne(counts, addresses, address);
        addresses := addresses + [address];
        values := values + [value];
        counts := counts[address := (if address in counts then counts[address] else 0) + 1];
      }
    }
    NothingAfter(Zip(addresses, values));
    return Ok((addresses, values, counts));
  }

  lemma NothingCounted()
    ensures Counts(map[], [])
  {
  }

  lemma OneRequest(inst: Instruction, t: Thread)
    ensures WriteRequest(inst, t) ==
            match ExecutorModel.Address(t, inst.src2, inst.immediate)
            case Throw(e) => Throw(e)
            case Ok(a) => if ReadReg(t, inst.src1).Ok? then Ok(Write(a, ReadReg(t, inst.src1).value))
                          else Throw(ReadReg(t, inst.src1).error)
  {
  }

  // ---------------------------------------------------------------------------------------------
  // The switch

  /** The result and the new state are those of the model's step. */
  ghost predicate Executed(inst: Instruction, w: WarpVal, m: MemVal, r: Result<ExecutionResult>, w': WarpVal,
                           m': MemVal) {
    match ExecutorModel.Execute(inst, w, m)
    case Ok(o) => r == Ok(ExecutionResult(o.status, o.latency)) && w' == o.warp && m' == o.mem
    case Throw(e) => r == Throw(e)
  }

  /** A warp is none of the objects a memory system is made of. */
  lemma NotInMemory(warp: Warp, memory: MemorySystem)
    ensures warp !in memory.Repr()
  {
    NotInCache(warp, memory.l1);
    NotInCache(warp, memory.l2);
  }

  lemma NotInCache(warp: Warp, cache: Cache)
    ensures warp !in cache.Repr()
  {
    forall p: Policies.Policy
      ensures p.Object() != warp
    {
      match p
      case UseLru(_) =>
      case UseFifo(_) =>
      case UseRandom(_) =>
    }
  }

  method ExecuteBranch(inst: Instruction, warp: Warp) returns (result: ExecutionResult)
    modifies warp
    ensures var (w, status) := Branch(inst, old(warp.Abs())); warp.Abs() == w && result == ExecutionResult(status, 1)
  {
    ghost var w := warp.Abs();
    var pc, active := warp.pc, warp.mask;
    var taken: set<nat> := {};
    for i := 0 to |warp.threads|
      invariant warp.Abs() == w
      invariant taken == set j | j in TakenMask(w) && j < i
    {
      if i in active && warp.threads[i].predicate_ {
        taken := taken + {i};
      }
    }
    assert taken == TakenMask(w);
    result := ExecutionResult(Done, 1);
    if taken == {} {
      warp.pc := pc + 1;
    } else if taken == active {
      warp.pc := BranchTarget(pc, inst.immediate);
      result := ExecutionResult(BranchTaken, 1);
    } else {
      var notTaken := active - taken;
      warp.PushSimtStack(StackEntry(notTaken, pc + 1, warp.reconvergencePc, Deferred));
      warp.mask := taken;
      warp.pc := BranchTarget(pc, inst.immediate);
      result := ExecutionResult(BranchTaken, 1);
    }
  }

  method ExecuteSsy(inst: Instruction, warp: Warp) returns (result: ExecutionResult)
    modifies warp
    ensures warp.Abs() == SetSync(inst, old(warp.Abs())) && result == ExecutionResult(Done, 1)
  {
    var pc := warp.pc;
    var target := BranchTarget(pc, inst.immediate);
    warp.PushSimtStack(StackEntry(warp.mask, target, warp.reconvergencePc, Token));
    warp.reconvergencePc := target;
    warp.pc := pc + 1;
    result := ExecutionResult(Done, 1);
  }

  method ExecuteSync(warp: Warp) returns (r: Result<ExecutionResult>)
    modifies warp
    ensures match Sync(old(warp.Abs()))
            case Ok(w) => r == Ok(ExecutionResult(Done, 1)) && warp.Abs() == w
            case Throw(e) => r == Throw(e)
  {
    var pc := warp.pc;
    var next := warp.PopSimtStack();
    match next {
      case None =>
        return Throw(EmptyStack);
      case Some(path) =>
        if path.targetPc == pc {
          warp.SetPath(path.mask, pc + 1, path.reconvergencePc);
        } else {
          warp.SetPath(path.mask, path.targetPc, path.reconvergencePc);
        }
        return Ok(ExecutionResult(Done, 1));
    }
  }

  lemma NoAccess(m: MemVal)
    ensures MemoryModel.WarpLoad(m, []) == Ok(Loaded([], m, WarpMemoryResult(0, 0, 0, 0)))
    ensures MemoryModel.WarpStore(m, []) == Ok(Serviced(m, WarpMemoryResult(0, 0, 0, 0)))
    ensures MemoryModel.WarpAtomicAdd(m, []) == Ok(Serviced(m, WarpMemoryResult(0, 0, 0, 0)))
  {
    assert AddressesOf([]) == [];
  }

  /** The requests of a LOAD and what memory answers: nothing is asked when no lane is active. */
  ghost function Fetched(inst: Instruction, w: WarpVal, m: MemVal): Result<(Loaded, nat)> {
    var addresses :- LoadAddresses(inst, w.threads, w.mask, 0);
    var loaded :- MemoryModel.WarpLoad(m, addresses);
    Ok((loaded, if addresses == [] then 1 else loaded.result.latency))
  }

  method Fetch(inst: Instruction, warp: Warp, memory: MemorySystem) returns (r: Result<(seq<nat>, seq<int>, nat)>)
    requires memory.Valid()
    modifies memory.Repr()
    ensures memory.Valid() && warp.Abs() == old(warp.Abs())
    ensures match Fetched(inst, old(warp.Abs()), old(memory.Abs()))
            case Ok((l, latency)) =>
              && r == Ok((LaneList(warp.mask, 0, |warp.threads|), l.values, latency)) && memory.Abs() == l.mem
              && |l.values| == |r.value.0|
            case Throw(e) => r == Throw(e)
  {
    hide MemoryModel.WarpLoad, LoadAddresses, LaneList, Cache.Repr, Cache.Abs, Cache.Valid, Cache.SetAt;
    NotInMemory(warp, memory);
    AliveMemory(memory);
    NoAccess(memory.Abs());
    RequestPerLane(inst, warp.threads, warp.mask, 0);
    var requests :- LoadRequests(inst, warp);
    if requests.0 == [] {
      return Ok((requests.1, [], 1));
    }
    LoadedPerRequest(memory.Abs(), requests.0);
    var loaded :- memory.WarpLoad(requests.0);
    return Ok((requests.1, loaded.0, loaded.1.latency));
  }

  lemma SwitchLoad(inst: Instruction, w: WarpVal, m: MemVal)
    requires inst.opcode == LOAD
    ensures match Fetched(inst, w, m)
            case Throw(e) => ExecutorModel.Execute(inst, w, m) == Throw(e)
            case Ok((l, latency)) =>
              match Scatter(inst.dst, w.threads, w.mask, l.values, 0)
              case Throw(e) => ExecutorModel.Execute(inst, w, m) == Throw(e)
              case Ok(ts) =>
                ExecutorModel.Execute(inst, w, m) ==
                  Ok(Outcome(w.(threads := ts, pc := w.pc + 1), l.mem, Done, latency))
  {
    hide MemoryModel.WarpLoad, LoadAddresses, Scatter;
  }

  method ExecuteLoad(inst: Instruction, warp: Warp, memory: MemorySystem) returns (r: Result<ExecutionResult>)
    requires inst.opcode == LOAD && memory.Valid()
    modifies warp, memory.Repr()
    ensures memory.Valid() && Executed(inst, old(warp.Abs()), old(memory.Abs()), r, warp.Abs(), memory.Abs())
  {
    hide ExecutorModel.Execute, Fetched, Scatter, LaneList, Cache.Repr, Cache.Abs, Cache.Valid, Cache.SetAt;
    NotInMemory(warp, memory);
    AliveMemory(memory);
    SwitchLoad(inst, warp.Abs(), memory.Abs());
    var fetched :- Fetch(inst, warp, memory);
    var (lanes, values, latency) := fetched;
    var _ :- ScatterLanes(inst.dst, warp, lanes, values);
    warp.pc := warp.pc + 1;
    return Ok(ExecutionResult(Done, latency));
  }

  lemma RequestPerLane(inst: Instruction, ts: seq<Thread>, mask: set<nat>, i: nat)
    requires i <= |ts|
    ensures LoadAddresses(inst, ts, mask, i).Ok? ==>
              |LoadAddresses(inst, ts, mask, i).value| == |LaneList(mask, i, |ts|)|
    decreases |ts| - i
  {
    hide ExecutorModel.Address;
    if i < |ts| {
      RequestPerLane(inst, ts, mask, i + 1);
    }
  }

  lemma LoadedPerRequest(m: MemVal, addresses: seq<nat>)
    ensures MemoryModel.WarpLoad(m, addresses).Ok? ==> |MemoryModel.WarpLoad(m, addresses).value.values| == |addresses|
  {
  }

  /** What a STORE or ATOMIC_ADD (`atomic`) comes to. */
  ghost function Sent(inst: Instruction, w: WarpVal, m: MemVal, atomic: bool): Result<(MemVal, nat)> {
    var writes :- WriteRequests(inst, w.threads, w.mask, 0);
    var done :- if atomic then MemoryModel.WarpAtomicAdd(m, writes) else MemoryModel.WarpStore(m, writes);
    Ok((done.mem, if writes == [] then 1 else done.result.latency + CollisionStalls(AddressesOf(writes))))
  }

  lemma SentIs(inst: Instruction, w: WarpVal, m: MemVal, atomic: bool, writes: seq<Write>)
    requires WriteRequests(inst, w.threads, w.mask, 0) == Ok(writes)
    ensures writes == [] ==> Sent(inst, w, m, atomic) == Ok((m, 1))
    ensures writes != [] ==>
              match if atomic then MemoryModel.WarpAtomicAdd(m, writes) else MemoryModel.WarpStore(m, writes)
              case Ok(s) => Sent(inst, w, m, atomic) ==
                Ok((s.mem, s.result.latency + CollisionStalls(AddressesOf(writes))))
              case Throw(e) => Sent(inst, w, m, atomic) == Throw(e)
  {
    NoAccess(m);
    hide MemoryModel.WarpStore, MemoryModel.WarpAtomicAdd, WriteRequests, CollisionStalls;
  }

  lemma SentThrows(inst: Instruction, w: WarpVal, m: MemVal, atomic: bool)
    requires WriteRequests(inst, w.threads, w.mask, 0).Throw?
    ensures Sent(inst, w, m, atomic) == Throw(WriteRequests(inst, w.threads, w.mask, 0).error)
  {
    hide WriteRequests;
  }

  /** Gather the lanes' writes and send them; colliding lanes cost a cycle each beyond the first. */
  method Send(inst: Instruction, warp: Warp, memory: MemorySystem, atomic: bool) returns (r: Result<nat>)
    requires memory.Valid()
    modifies memory.Repr()
    ensures memory.Valid() && warp.Abs() == old(warp.Abs())
    ensures match Sent(inst, old(warp.Abs()), old(memory.Abs()), atomic)
            case Ok((m, latency)) => r == Ok(latency) && memory.Abs() == m
            case Throw(e) => r == Throw(e)
  {
    hide MemoryModel.WarpStore, MemoryModel.WarpAtomicAdd, WriteRequests, CollisionStalls, Sent, Counts,
         Cache.Repr, Cache.Abs, Cache.Valid, Cache.SetAt;
    NotInMemory(warp, memory);
    AliveMemory(memory);
    if WriteRequests(inst, warp.threads, warp.mask, 0).Throw? {
      SentThrows(inst, warp.Abs(), memory.Abs(), atomic);
    }
    var requests :- StoreRequests(inst, warp);
    var (addresses, values, counts) := requests;
    SentIs(inst, warp.Abs(), memory.Abs(), atomic, Zip(addresses, values));
    assert AddressesOf(Zip(addresses, values)) == addresses;
    var collisions := LargestCollision(counts, addresses);
    if addresses == [] {
      assert Zip(addresses, values) == [];
      return Ok(1);
    }
    var result :- Transmit(memory, addresses, values, atomic);
    return Ok(result.latency + collisions);
  }

  method Transmit(memory: MemorySystem, addresses: seq<nat>, values: seq<int>, atomic: bool)
    returns (r: Result<WarpMemoryResult>)
    requires memory.Valid() && |addresses| == |values|
    modifies memory.Repr()
    ensures memory.Valid()
    ensures var writes := Zip(addresses, values);
            var m := old(memory.Abs());
            match if atomic then MemoryModel.WarpAtomicAdd(m, writes) else MemoryModel.WarpStore(m, writes)
            case Ok(s) => r == Ok(s.result) && memory.Abs() == s.mem
            case Throw(e) => r == Throw(e)
  {
    hide MemoryModel.WarpStore, MemoryModel.WarpAtomicAdd, Cache.Repr, Cache.Abs, Cache.Valid, Cache.SetAt;
    if atomic {
      r := memory.WarpAtomicAdd(addresses, values);
    } else {
      r := memory.WarpStore(addresses, values);
    }
  }

  lemma SwitchSend(inst: Instruction, w: WarpVal, m: MemVal)
    requires inst.opcode == STORE || inst.opcode == ATOMIC_ADD
    ensures match Sent(inst, w, m, inst.opcode == ATOMIC_ADD)
            case Throw(e) => ExecutorModel.Execute(inst, w, m) == Throw(e)
            case Ok((m', latency)) =>
              ExecutorModel.Execute(inst, w, m) == Ok(Outcome(w.(pc := w.pc + 1), m', Done, latency))
  {
    hide MemoryModel.WarpStore, MemoryModel.WarpAtomicAdd, WriteRequests, CollisionStalls;
  }

  method ExecuteSend(inst: Instruction, warp: Warp, memory: MemorySystem) returns (r: Result<ExecutionResult>)
    requires (inst.opcode == STORE || inst.opcode == ATOMIC_ADD) && memory.Valid()
    modifies warp, memory.Repr()
    ensures memory.Valid() && Executed(inst, old(warp.Abs()), old(memory.Abs()), r, warp.Abs(), memory.Abs())
  {
    hide ExecutorModel.Execute, Sent, Cache.Repr, Cache.Abs, Cache.Valid, Cache.SetAt;
    NotInMemory(warp, memory);
    AliveMemory(memory);
    SwitchSend(inst, warp.Abs(), memory.Abs());
    var latency :- Send(inst, warp, memory, inst.opcode == ATOMIC_ADD);
    warp.pc := warp.pc + 1;
    return Ok(ExecutionResult(Done, latency));
  }

  /** The cases of the switch that leave memory alone. */
  ghost function Controlled(inst: Instruction, w: WarpVal): Result<(WarpVal, Status)> {
    match inst.opcode
    case BRANCH => Ok(Branch(inst, w))
    case SSY => Ok((SetSync(inst, w), Done))
    case SYNC =>
      var w' :- Sync(w);
      Ok((w', Done))
    case BARRIER => if |w.mask| != |w.threads| then Throw(DivergentBarrier)
      else Ok((w.(pc := w.pc + 1), BarrierReached))
    case ADD | SUB | MUL | MOV | CMP =>
      var ts :- AluLanes(inst, w.threads, w.mask, 0);
      Ok((w.(threads := ts, pc := w.pc + 1), Done))
    case _ => Ok((w, Done))
  }

  predicate UsesMemory(op: Opcode) { op in {LOAD, STORE, ATOMIC_ADD} }

  lemma SwitchControl(inst: Instruction, w: WarpVal, m: MemVal)
    requires !UsesMemory(inst.opcode)
    ensures match Controlled(inst, w)
            case Ok((w', status)) => ExecutorModel.Execute(inst, w, m) == Ok(Outcome(w', m, status, 1))
            case Throw(e) => ExecutorModel.Execute(inst, w, m) == Throw(e)
  {
    hide AluLanes, Branch, Sync, SetSync;
  }

  method ExecuteControl(inst: Instruction, warp: Warp) returns (r: Result<ExecutionResult>)
    requires !UsesMemory(inst.opcode)
    modifies warp
    ensures match Controlled(inst, old(warp.Abs()))
            case Ok((w', status)) => r == Ok(ExecutionResult(status, 1)) && warp.Abs() == w'
            case Throw(e) => r == Throw(e)
  {
    hide AluLanes, Branch, Sync, SetSync;
    if inst.opcode == BRANCH {
      var result := ExecuteBranch(inst, warp);
      return Ok(result);
    } else if inst.opcode == SSY {
      var result := ExecuteSsy(inst, warp);
      return Ok(result);
    } else if inst.opcode == SYNC {
      r := ExecuteSync(warp);
    } else if inst.opcode == BARRIER {
      if |warp.mask| != |warp.threads| {
        return Throw(DivergentBarrier);
      }
      warp.pc := warp.pc + 1;
      return Ok(ExecutionResult(BarrierReached, 1));
    } else {
      r := ExecuteAlu(inst, warp);
    }
  }

  /** One instruction on one warp. */
  method Execute(inst: Instruction, warp: Warp, memory: MemorySystem) returns (r: Result<ExecutionResult>)
    requires memory.Valid()
    modifies warp, memory.Repr()
    ensures memory.Valid() && Executed(inst, old(warp.Abs()), old(memory.Abs()), r, warp.Abs(), memory.Abs())
  {
    hide ExecutorModel.Execute, Controlled, Cache.Repr, Cache.Abs, Cache.Valid, Cache.SetAt;
    NotInMemory(warp, memory);
    AliveMemory(memory);
    if inst.opcode == LOAD {
      r := ExecuteLoad(inst, warp, memory);
    } else if inst.opcode == STORE || inst.opcode == ATOMIC_ADD {
      r := ExecuteSend(inst, warp, memory);
    } else {
      SwitchControl(inst, warp.Abs(), memory.Abs());
      r := ExecuteControl(inst, warp);
    }
  }
}
