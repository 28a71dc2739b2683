/** One instruction executed by one warp: the step function of `InstructionExecutor::execute`. */
module ExecutorModel {
  import opened Common
  import opened Isa
  import opened WarpModel
  import opened MemoryModel

  datatype Status = Done | BranchTaken | BarrierReached

  datatype Outcome = Outcome(warp: WarpVal, mem: MemVal, status: Status, latency: nat)

  function ReadReg(t: Thread, r: int): Result<int> {
    if 0 <= r < |t.registers| then Ok(t.registers[r]) else Throw(OutOfRange)
  }

  function WriteReg(t: Thread, r: int, value: int): Result<Thread> {
    if 0 <= r < |t.registers| then Ok(t.(registers := t.registers[r := value])) else Throw(OutOfRange)
  }

  predicate IsAlu(op: Opcode) { op in {ADD, SUB, MUL, MOV, CMP} }

  /** ADD, SUB, MUL, MOV and CMP on one thread. */
  function AluThread(inst: Instruction, t: Thread): Result<Thread>
    requires IsAlu(inst.opcode)
  {
    if inst.opcode == MOV && inst.src1 == -1 then WriteReg(t, inst.dst, inst.immediate)
    else
      var a :- ReadReg(t, inst.src1);
      if inst.opcode == MOV then WriteReg(t, inst.dst, a)
      else
        var b :- ReadReg(t, inst.src2);
        match inst.opcode
        case ADD => WriteReg(t, inst.dst, a + b)
        case SUB => WriteReg(t, inst.dst, a - b)
        case MUL => WriteReg(t, inst.dst, a * b)
        case CMP => Ok(t.(predicate_ := a == b))
  }

  /** The effective address of a memory instruction whose base register is `base`. */
  function Address(t: Thread, base: int, immediate: int): Result<nat> {
    if base == -1 then Ok(Wrap(immediate))
    else
      var b :- ReadReg(t, base);
      Ok(Wrap(b + immediate))
  }

  /** The ALU instruction on the active lanes from `i` on. */
  function AluLanes(inst: Instruction, ts: seq<Thread>, mask: set<nat>, i: nat): (r: Result<seq<Thread>>)
    requires IsAlu(inst.opcode) && i <= |ts|
    ensures r.Ok? ==> |r.value| == |ts|
    decreases |ts| - i
  {
    if i == |ts| then Ok(ts)
    else if i !in mask then AluLanes(inst, ts, mask, i + 1)
    else
      var t :- AluThread(inst, ts[i]);
      AluLanes(inst, ts[i := t], mask, i + 1)
  }

  /** The addresses a LOAD reads, for the active lanes from `i` on. */
  function LoadAddresses(inst: Instruction, ts: seq<Thread>, mask: set<nat>, i: nat): Result<seq<nat>>
    requires i <= |ts|
    decreases |ts| - i
  {
    if i == |ts| then Ok([])
    else if i !in mask then LoadAddresses(inst, ts, mask, i + 1)
    else
      var a :- Address(ts[i], inst.src1, inst.immediate);
      var rest :- LoadAddresses(inst, ts, mask, i + 1);
      Ok([a] + rest)
  }

  /** Write loaded values into the active lanes from `i` on. */
  function Scatter(dst: int, ts: seq<Thread>, mask: set<nat>, values: seq<int>, i: nat): (r: Result<seq<Thread>>)
    requires i <= |ts|
    ensures r.Ok? ==> |r.value| == |ts|
    decreases |ts| - i
  {
    if i == |ts| || values == [] then Ok(ts)
    else if i !in mask then Scatter(dst, ts, mask, values, i + 1)
    else
      var t :- WriteReg(ts[i], dst, values[0]);
      Scatter(dst, ts[i := t], mask, values[1..], i + 1)
  }

  /** One thread's request of a STORE or ATOMIC_ADD. */
  function WriteRequest(inst: Instruction, t: Thread): Result<Write> {
    var a :- Address(t, inst.src2, inst.immediate);
    var v :- ReadReg(t, inst.src1);
    Ok(Write(a, v))
  }

  /** The addresses and values a STORE or ATOMIC_ADD sends, for the active lanes from `i` on. */
  function WriteRequests(inst: Instruction, ts: seq<Thread>, mask: set<nat>, i: nat): Result<seq<Write>>
    requires i <= |ts|
    decreases |ts| - i
  {
    if i == |ts| then Ok([])
    else if i !in mask then WriteRequests(inst, ts, mask, i + 1)
    else
      var w :- WriteRequest(inst, ts[i]);
      var rest :- WriteRequests(inst, ts, mask, i + 1);
      Ok([w] + rest)
  }

  /** How many of `addresses` equal `a`. */
  function Count(addresses: seq<nat>, a: nat): nat {
    if addresses == [] then 0
    else Count(addresses[..|addresses| - 1], a) + (if addresses[|addresses| - 1] == a then 1 else 0)
  }

  /** The largest number of lanes that share one address, over the first `n` addresses. */
  function MaxCollisions(addresses: seq<nat>, n: nat): nat
    requires n <= |addresses|
  {
    if n == 0 then 0 else Max(MaxCollisions(addresses, n - 1), Count(addresses, addresses[n - 1]))
  }

  /** The extra cycles lanes that hit one address cost. */
  function CollisionStalls(addresses: seq<nat>): nat {
    var most := MaxCollisions(addresses, |addresses|);
    if most > 1 then most - 1 else 0
  }

  function TakenMask(w: WarpVal): set<nat> {
    set i | i in w.mask && i < |w.threads| && w.threads[i].predicate_
  }

  function BranchTarget(pc: nat, immediate: int): nat { Wrap(pc + immediate) }

  function Branch(inst: Instruction, w: WarpVal): (WarpVal, Status) {
    var taken := TakenMask(w);
    if taken == {} then (w.(pc := w.pc + 1), Done)
    else if taken == w.mask then (w.(pc := BranchTarget(w.pc, inst.immediate)), BranchTaken)
    else
      var deferred := StackEntry(w.mask - taken, w.pc + 1, w.reconvergencePc, Deferred);
      (Push(w, deferred).(mask := taken, pc := BranchTarget(w.pc, inst.immediate)), BranchTaken)
  }

  function SetSync(inst: Instruction, w: WarpVal): WarpVal {
    var target := BranchTarget(w.pc, inst.immediate);
    Push(w, StackEntry(w.mask, target, w.reconvergencePc, Token)).(reconvergencePc := target, pc := w.pc + 1)
  }

  /** SYNC tells a token from a deferred path only by comparing the entry's target with the warp's PC. */
  function Sync(w: WarpVal): Result<WarpVal> {
    if w.stack == [] then Throw(EmptyStack)
    else if Top(w).targetPc == w.pc then Ok(Resume(w, w.pc + 1))
    else Ok(Resume(w, Top(w).targetPc))
  }

  /** `InstructionExecutor::execute`. */
  function Execute(inst: Instruction, w: WarpVal, m: MemVal): Result<Outcome> {
    match inst.opcode
    case LOAD =>
      var addresses :- LoadAddresses(inst, w.threads, w.mask, 0);
      var loaded :- WarpLoad(m, addresses);
      var ts :- Scatter(inst.dst, w.threads, w.mask, loaded.values, 0);
      Ok(Outcome(w.(threads := ts, pc := w.pc + 1), loaded.mem, Done,
                 if addresses == [] then 1 else loaded.result.latency))
    case STORE =>
      var writes :- WriteRequests(inst, w.threads, w.mask, 0);
      var done :- WarpStore(m, writes);
      Ok(Outcome(w.(pc := w.pc + 1), done.mem, Done,
                 if writes == [] then 1 else done.result.latency + CollisionStalls(AddressesOf(writes))))
    case ATOMIC_ADD =>
      var writes :- WriteRequests(inst, w.threads, w.mask, 0);
      var done :- WarpAtomicAdd(m, writes);
      Ok(Outcome(w.(pc := w.pc + 1), done.mem, Done,
                 if writes == [] then 1 else done.result.latency + CollisionStalls(AddressesOf(writes))))
    case BRANCH =>
      var (w', status) := Branch(inst, w);
      Ok(Outcome(w', m, status, 1))
    case SSY => Ok(Outcome(SetSync(inst, w), m, Done, 1))
    case SYNC =>
      var w' :- Sync(w);
      Ok(Outcome(w', m, Done, 1))
    case BARRIER =>
      if |w.mask| != |w.threads| then Throw(DivergentBarrier)
      else Ok(Outcome(w.(pc := w.pc + 1), m, BarrierReached, 1))
    case _ =>
      var ts :- AluLanes(inst, w.threads, w.mask, 0);
      Ok(Outcome(w.(threads := ts, pc := w.pc + 1), m, Done, 1))
  }

  /** The end-of-kernel half of `SM::tick`: a warp past the last instruction resumes a pending path or completes;
      any other warp stalls for the rest of the instruction's latency, unless it just reached a barrier. */
  function Finish(k: Code, w: WarpVal, status: Status, latency: nat): WarpVal {
    if w.pc >= |k| then
      if w.stack != [] then Resume(w, Top(w).targetPc)
      else if w.state != StalledAtBarrier then w.(state := Completed)
      else w
    else if status != BarrierReached && latency > 1 then Stall(w, latency - 1)
    else w
  }
}
