/** How many cycles an instruction takes, and what that means for its warp. */
module InstructionTiming {
  import opened Common
  import opened Isa
  import opened Sequences
  import opened WarpModel
  import opened CacheModel
  import opened MemoryModel
  import opened ExecutorModel
  import opened WarpMemory
  import opened Semantics
  import opened PathTiming
  import opened SmModel
  import opened Termination
  import opened Stalls
  import CacheRuns

  // ---------------------------------------------------------------------------------------------
  // Who asks for which word

  predicate TouchesMemory(op: Opcode) { op in {LOAD, STORE, ATOMIC_ADD} }

  function BaseRegister(inst: Instruction): int { if inst.opcode == LOAD then inst.src1 else inst.src2 }

  /** The active lanes from `i` on whose effective address is `a`. */
  ghost function Sharers(inst: Instruction, ts: seq<Thread>, mask: set<nat>, i: nat, a: nat): set<nat> {
    set l | l in mask && i <= l < |ts| && Addresses(ts[l], BaseRegister(inst), inst.immediate, a)
  }

  /** The active lanes from `i` on. */
  ghost function ActiveFrom(ts: seq<Thread>, mask: set<nat>, i: nat): set<nat> { set l | l in mask && i <= l < |ts| }

  /** What the machine asks memory for. */
  function Requested(inst: Instruction, ts: seq<Thread>, mask: set<nat>, i: nat): Result<seq<nat>>
    requires i <= |ts|
  {
    if inst.opcode == LOAD then LoadAddresses(inst, ts, mask, i)
    else
      var writes :- WriteRequests(inst, ts, mask, i);
      Ok(AddressesOf(writes))
  }

  lemma RequestedStep(inst: Instruction, ts: seq<Thread>, mask: set<nat>, i: nat)
    requires TouchesMemory(inst.opcode) && i < |ts| && Requested(inst, ts, mask, i).Ok?
    ensures Requested(inst, ts, mask, i + 1).Ok?
    ensures i in mask ==> Address(ts[i], BaseRegister(inst), inst.immediate).Ok?
    ensures Requested(inst, ts, mask, i).value ==
            (if i in mask then [Address(ts[i], BaseRegister(inst), inst.immediate).value] else [])
            + Requested(inst, ts, mask, i + 1).value
  {
    hide Address;
    if inst.opcode != LOAD && i in mask {
      var w, rest := WriteRequest(inst, ts[i]).value, WriteRequests(inst, ts, mask, i + 1).value;
      assert AddressesOf([w] + rest) == [w.address] + AddressesOf(rest);
    }
  }

  lemma CountFront(x: nat, s: seq<nat>, a: nat)
    ensures Count([x] + s, a) == (if x == a then 1 else 0) + Count(s, a)
  {
    if s == [] {
      assert [x] + s == [x] && [x][..0] == [];
    } else {
      assert ([x] + s)[..|s|] == [x] + s[..|s| - 1];
      CountFront(x, s[..|s| - 1], a);
    }
  }

  lemma SharersStep(inst: Instruction, ts: seq<Thread>, mask: set<nat>, i: nat, a: nat)
    requires i < |ts|
    ensures |ActiveFrom(ts, mask, i)| == |ActiveFrom(ts, mask, i + 1)| + (if i in mask then 1 else 0)
    ensures |Sharers(inst, ts, mask, i, a)| == |Sharers(inst, ts, mask, i + 1, a)|
              + (if i in mask && Addresses(ts[i], BaseRegister(inst), inst.immediate, a) then 1 else 0)
  {
    hide Addresses;
    var more, rest := Sharers(inst, ts, mask, i, a), Sharers(inst, ts, mask, i + 1, a);
    assert more == (if i in more then {i} else {}) + rest;
    assert ActiveFrom(ts, mask, i) == (if i in mask then {i} else {}) + ActiveFrom(ts, mask, i + 1);
  }

  /** As many requests for a word as active lanes with that address, and one request for each active lane. */
  lemma {:induction false} RequestedCounts(inst: Instruction, ts: seq<Thread>, mask: set<nat>, i: nat, a: nat)
    requires TouchesMemory(inst.opcode) && i <= |ts| && Requested(inst, ts, mask, i).Ok?
    ensures var r := Requested(inst, ts, mask, i).value;
            Count(r, a) == |Sharers(inst, ts, mask, i, a)| && |r| == |ActiveFrom(ts, mask, i)|
    decreases |ts| - i
  {
    hide Requested, Addresses, Address, Count, Sharers, ActiveFrom, BaseRegister;
    if i < |ts| {
      RequestedStep(inst, ts, mask, i);
      RequestedCounts(inst, ts, mask, i + 1, a);
      SharersStep(inst, ts, mask, i, a);
      var rest := Requested(inst, ts, mask, i + 1).value;
      if i in mask {
        OneAddress(ts[i], BaseRegister(inst), inst.immediate);
        CountFront(Address(ts[i], BaseRegister(inst), inst.immediate).value, rest, a);
      } else {
        assert [] + rest == rest;
      }
    } else {
      NothingRequested(inst, ts, mask, a);
      NobodyLeft(inst, ts, mask, a);
    }
  }

  lemma NobodyLeft(inst: Instruction, ts: seq<Thread>, mask: set<nat>, a: nat)
    ensures ActiveFrom(ts, mask, |ts|) == {} && Sharers(inst, ts, mask, |ts|, a) == {}
  {
  }

  lemma NothingRequested(inst: Instruction, ts: seq<Thread>, mask: set<nat>, a: nat)
    ensures Requested(inst, ts, mask, |ts|) == Ok([]) && Count([], a) == 0
  {
  }

  // ---------------------------------------------------------------------------------------------
  // Lanes that collide

  lemma {:induction false} MaxCollisionsFacts(addresses: seq<nat>, n: nat)
    requires n <= |addresses|
    ensures forall i :: 0 <= i < n ==> Count(addresses, addresses[i]) <= MaxCollisions(addresses, n)
    ensures MaxCollisions(addresses, n) > 0 ==>
              exists i :: 0 <= i < n && Count(addresses, addresses[i]) == MaxCollisions(addresses, n)
  {
    if n > 0 { MaxCollisionsFacts(addresses, n - 1); }
  }

  lemma {:induction false} CountPositive(addresses: seq<nat>, a: nat)
    ensures Count(addresses, a) > 0 <==> a in addresses
  {
    if addresses != [] {
      CountPositive(addresses[..|addresses| - 1], a);
      assert addresses == addresses[..|addresses| - 1] + [addresses[|addresses| - 1]];
    }
  }

  /** The extra cycles of a store or atomic: one less than the largest number of active lanes that address one word. */
  lemma CollisionsMean(inst: Instruction, w: WarpVal)
    requires inst.opcode in {STORE, ATOMIC_ADD} && Requested(inst, w.threads, w.mask, 0).Ok?
    ensures var stalls := CollisionStalls(Requested(inst, w.threads, w.mask, 0).value);
            && (forall a: nat :: |Sharers(inst, w.threads, w.mask, 0, a)| <= stalls + 1)
            && (stalls > 0 ==> exists a: nat :: |Sharers(inst, w.threads, w.mask, 0, a)| == stalls + 1)
  {
    hide Requested, Sharers, Count;
    var addresses := Requested(inst, w.threads, w.mask, 0).value;
    MaxCollisionsFacts(addresses, |addresses|);
    forall a: nat
      ensures |Sharers(inst, w.threads, w.mask, 0, a)| == Count(addresses, a) &&
              Count(addresses, a) <= CollisionStalls(addresses) + 1
    {
      RequestedCounts(inst, w.threads, w.mask, 0, a);
      CountPositive(addresses, a);
    }
  }

  // ---------------------------------------------------------------------------------------------
  // Latencies

  /** How long every instruction takes and what it does to the caches: one cycle and nothing, but for a memory
      instruction with an active lane, which takes what its requests cost and, if it writes, a cycle for each further
      lane on its most contended word. */
  lemma ExecuteCosts(inst: Instruction, w: WarpVal, m: MemVal)
    requires Execute(inst, w, m).Ok?
    ensures var o := Execute(inst, w, m).value;
            if TouchesMemory(inst.opcode) && ActiveFrom(w.threads, w.mask, 0) != {} then
              && Requested(inst, w.threads, w.mask, 0).Ok?
              && var addresses := Requested(inst, w.threads, w.mask, 0).value;
                 var s := ServiceWarp(m, addresses, inst.opcode != LOAD);
                 && addresses != [] && s.Ok? && o.mem.l1 == s.value.mem.l1 && o.mem.l2 == s.value.mem.l2
                 && o.latency == s.value.result.latency
                                 + (if inst.opcode == LOAD then 0 else CollisionStalls(addresses))
            else o.latency == 1 && o.mem.l1 == m.l1 && o.mem.l2 == m.l2
  {
    hide ServiceWarp, LoadAll, StoreAll, AddAll, AluLanes, Scatter, LoadAddresses, WriteRequests, CollisionStalls,
         Branch, SetSync, Sync;
    if TouchesMemory(inst.opcode) {
      RequestedCounts(inst, w.threads, w.mask, 0, 0);
      if inst.opcode != LOAD { SameLength(WriteRequests(inst, w.threads, w.mask, 0).value); }
      NoRequests(m, inst.opcode != LOAD);
    }
  }

  lemma SameLength(writes: seq<Write>)
    ensures AddressesOf(writes) == [] <==> writes == []
  {
    assert |AddressesOf(writes)| == |writes|;
  }

  lemma NoRequests(m: MemVal, isWrite: bool)
    ensures ServiceWarp(m, [], isWrite) == Ok(Serviced(m, WarpMemoryResult(0, 0, 0, 0)))
  {
  }

  // ---------------------------------------------------------------------------------------------
  // A cold load

  /** Every active lane, and there is one, addresses global memory in the line at `base`. */
  ghost predicate OneLine(inst: Instruction, w: WarpVal, base: nat, lineSize: nat) {
    && ActiveFrom(w.threads, w.mask, 0) != {}
    && forall l: nat, a: nat ::
         l in w.mask && l < |w.threads| && Addresses(w.threads[l], inst.src1, inst.immediate, a) ==>
         InLine(a, base, lineSize)
  }

  predicate InLine(a: nat, base: nat, lineSize: nat) { base <= a < base + lineSize && !IsShared(a) }

  lemma OneTransaction(addresses: seq<nat>, base: nat, lineSize: nat)
    requires lineSize > 0 && base % lineSize == 0 && addresses != []
    requires forall a :: a in addresses ==> base <= a < base + lineSize
    ensures Coalesce(addresses, lineSize) == [base]
  {
    hide LineBases;
    CoalesceFacts(addresses, lineSize);
    forall a | a in addresses
      ensures LineBase(a, lineSize) == base
    {
      BaseUnique(a, lineSize, base);
    }
    assert addresses[0] in addresses;
    assert Bases(addresses, lineSize) == {base};
    var c := Coalesce(addresses, lineSize);
    assert Elements(c) == {base};
    ElementsSize(c);
    assert c[0] in c;
  }

  /** A LOAD of one line of global memory on new LRU caches takes the latencies of the L1, the L2 and global memory
      together. */
  lemma ColdLoadCosts(inst: Instruction, w: WarpVal, m: MemVal, base: nat)
    requires inst.opcode == LOAD && Execute(inst, w, m).Ok? && NewLru(m.l1) && NewLru(m.l2)
    requires base % m.l1.lineSize == 0 && OneLine(inst, w, base, m.l1.lineSize)
    ensures Execute(inst, w, m).value.latency == Max(1, m.latencies.l1 + m.latencies.l2 + m.latencies.global)
  {
    hide Execute, ServiceWarp, Requested, PathRun, Coalesce, NewLru, Addresses;
    ExecuteCosts(inst, w, m);
    var addresses := Requested(inst, w.threads, w.mask, 0).value;
    forall a | a in addresses
      ensures base <= a < base + m.l1.lineSize && !IsShared(a)
    {
      RequestedCounts(inst, w.threads, w.mask, 0, a);
      CountPositive(addresses, a);
      AskedInLine(inst, w, base, m.l1.lineSize, a);
    }
    assert addresses[0] in addresses;
    assert !Mixed(addresses) by {
      assert forall i :: 0 <= i < |addresses| ==> addresses[i] in addresses;
    }
    Positive(m.l1);
    OneTransaction(addresses, base, m.l1.lineSize);
    WarpCosts(m, addresses, false);
    assert Requests([base], false) == [CacheRuns.Request(base, false)];
    FirstCosts(m, CacheRuns.Request(base, false));
  }

  lemma AskedInLine(inst: Instruction, w: WarpVal, base: nat, lineSize: nat, a: nat)
    requires inst.opcode == LOAD && OneLine(inst, w, base, lineSize) && |Sharers(inst, w.threads, w.mask, 0, a)| > 0
    ensures base <= a < base + lineSize && !IsShared(a)
  {
    assert BaseRegister(inst) == inst.src1;
    var l :| l in Sharers(inst, w.threads, w.mask, 0, a);
    assert l in w.mask && Addresses(w.threads[l], inst.src1, inst.immediate, a);
    assert InLine(a, base, lineSize);
  }

  lemma Positive(c: CacheVal)
    requires NewLru(c)
    ensures c.lineSize > 0
  {
  }

  /** So the warp that issues it is not offered to its scheduler again before so many ticks, less one, have passed,
      and then it is. */
  lemma ColdLoadWaits(k: Code, s: SmVal, m: MemVal, i: nat, o: Outcome, base: nat, mems: nat -> MemVal, j: nat)
    requires Issues(k, s, m, i, o) && GoesOn(k, o) && k[Offered(s)[i].pc].opcode == LOAD && NewLru(m.l1) && NewLru(m.l2)
    requires base % m.l1.lineSize == 0 && OneLine(k[Offered(s)[i].pc], Offered(s)[i], base, m.l1.lineSize)
    requires j + 2 <= m.latencies.l1 + m.latencies.l2 + m.latencies.global
    requires TicksOn(k, Tick(k, s, m).value.sm, mems, j).Ok?
    ensures var s' := TicksOn(k, Tick(k, s, m).value.sm, mems, j).value;
            && |s'.warps| == |s.warps| && s'.warps[i].state == Stalled
            && (Offered(s')[i].state == Ready <==> j + 2 == m.latencies.l1 + m.latencies.l2 + m.latencies.global)
            && Offered(s')[i].state in {Ready, Stalled}
  {
    hide Tick, TicksOn, Execute, NewLru, OneLine;
    ColdLoadCosts(k[Offered(s)[i].pc], Offered(s)[i], m, base);
    LatencyHolds(k, s, m, i, o, mems, j);
  }
}
