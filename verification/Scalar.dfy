/** The reference machine: independent scalar threads that share memory, each with its own program counter. */
module ScalarModel {
  import opened Common
  import opened Isa
  import opened WarpModel
  import opened MemoryModel
  import opened ExecutorModel

  /** One program counter per thread; a thread whose counter is the kernel's length has finished. */
  datatype Scalars = Scalars(pcs: seq<nat>, threads: seq<Thread>, data: Data)

  function NextPc(k: Code, p: nat, t: Thread): nat
    requires p < |k|
  {
    Min(if k[p].opcode == BRANCH && t.predicate_ then BranchTarget(p, k[p].immediate) else p + 1, |k|)
  }

  /** One instruction on one thread; control instructions other than BRANCH do nothing. */
  function ScalarExecute(inst: Instruction, t: Thread, d: Data): Result<(Thread, Data)> {
    match inst.opcode
    case LOAD =>
      var a :- Address(t, inst.src1, inst.immediate);
      var v :- LoadWord(d, a);
      var t' :- WriteReg(t, inst.dst, v);
      Ok((t', d))
    case STORE =>
      var w :- WriteRequest(inst, t);
      var d' :- StoreWord(d, w.address, w.value);
      Ok((t, d'))
    case ATOMIC_ADD =>
      var w :- WriteRequest(inst, t);
      var d' :- AddWord(d, w.address, w.value);
      Ok((t, d'))
    case BRANCH | SSY | SYNC | BARRIER => Ok((t, d))
    case _ =>
      var t' :- AluThread(inst, t);
      Ok((t', d))
  }

  predicate Running(k: Code, c: Scalars, l: nat) {
    |c.pcs| == |c.threads| && l < |c.pcs| && c.pcs[l] < |k|
  }

  /** One step of thread `l`; a finished thread has none. */
  function StepLane(k: Code, c: Scalars, l: nat): Result<Scalars> {
    if !Running(k, c, l) then Throw(OutOfRange)
    else
      var p := c.pcs[l];
      var (t, d) :- ScalarExecute(k[p], c.threads[l], c.data);
      Ok(Scalars(c.pcs[l := NextPc(k, p, c.threads[l])], c.threads[l := t], d))
  }

  /** The threads of `schedule` step one after another. */
  function RunLanes(k: Code, c: Scalars, schedule: seq<nat>): Result<Scalars>
    decreases |schedule|
  {
    if schedule == [] then Ok(c)
    else
      var c' :- StepLane(k, c, schedule[0]);
      RunLanes(k, c', schedule[1..])
  }

  lemma RunSplit(k: Code, c: Scalars, a: seq<nat>, b: seq<nat>)
    requires RunLanes(k, c, a).Ok?
    ensures RunLanes(k, c, a + b) == RunLanes(k, RunLanes(k, c, a).value, b)
    decreases |a|
  {
    if a == [] {
      assert a + b == b;
    } else {
      assert (a + b)[1..] == a[1..] + b;
      RunSplit(k, StepLane(k, c, a[0]).value, a[1..], b);
    }
  }

  /** The lanes of `mask` from `i` to `n`, in increasing order. */
  function LaneList(mask: set<nat>, i: nat, n: nat): seq<nat>
    decreases n - i
  {
    if i >= n then [] else if i in mask then [i] + LaneList(mask, i + 1, n) else LaneList(mask, i + 1, n)
  }

  /** One instruction on the lanes of `mask` from `i` on, in increasing order, sharing `d`. */
  function Fold(inst: Instruction, ts: seq<Thread>, d: Data, mask: set<nat>, i: nat): (r: Result<(seq<Thread>, Data)>)
    requires i <= |ts|
    ensures r.Ok? ==> |r.value.0| == |ts|
    decreases |ts| - i
  {
    if i == |ts| then Ok((ts, d))
    else if i !in mask then Fold(inst, ts, d, mask, i + 1)
    else
      var (t, d') :- ScalarExecute(inst, ts[i], d);
      Fold(inst, ts[i := t], d', mask, i + 1)
  }

  /** The program counters after every lane of `mask` from `i` on has executed the instruction at `p`. */
  function Advanced(k: Code, pcs: seq<nat>, ts: seq<Thread>, mask: set<nat>, p: nat, i: nat): seq<nat>
    requires p < |k| && |pcs| == |ts|
  {
    seq(|pcs|, l requires 0 <= l < |pcs| => if l in mask && i <= l then NextPc(k, p, ts[l]) else pcs[l])
  }

  /** Lanes standing at one instruction, stepped in order, are one fold of that instruction. */
  lemma {:induction false} RunFold(k: Code, c: Scalars, mask: set<nat>, p: nat, i: nat)
    requires p < |k| && |c.pcs| == |c.threads| && i <= |c.threads|
    requires forall l :: i <= l < |c.threads| && l in mask ==> c.pcs[l] == p
    ensures var f := Fold(k[p], c.threads, c.data, mask, i);
            RunLanes(k, c, LaneList(mask, i, |c.threads|)) ==
            if f.Ok? then Ok(Scalars(Advanced(k, c.pcs, c.threads, mask, p, i), f.value.0, f.value.1))
            else Throw(f.error)
    decreases |c.threads| - i
  {
    var n := |c.threads|;
    if i == n {
      assert Advanced(k, c.pcs, c.threads, mask, p, i) == c.pcs;
    } else if i !in mask {
      RunFold(k, c, mask, p, i + 1);
      assert Advanced(k, c.pcs, c.threads, mask, p, i) == Advanced(k, c.pcs, c.threads, mask, p, i + 1);
    } else {
      var s := ScalarExecute(k[p], c.threads[i], c.data);
      assert LaneList(mask, i, n)[1..] == LaneList(mask, i + 1, n);
      if s.Ok? {
        var c' := StepLane(k, c, i).value;
        RunFold(k, c', mask, p, i + 1);
        assert Advanced(k, c'.pcs, c'.threads, mask, p, i + 1) == Advanced(k, c.pcs, c.threads, mask, p, i);
      }
    }
  }
}
