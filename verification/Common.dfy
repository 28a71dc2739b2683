/** Failure-compatible results and the machine-word arithmetic shared by every module. */
module Common {

  /** What the simulator throws. */
  datatype Error =
    | OutOfRange        // a register index, memory address or set index outside its container
    | MixedSpaces       // one warp instruction addresses both shared and global memory
    | EmptyStack        // SYNC with nothing on the SIMT stack
    | DivergentBarrier  // BARRIER while some lane of the warp is inactive
    | MalformedBarrier  // every other warp of the block has finished or waits, and one has finished
    | ImpossibleBlock   // a block that does not fit an empty SM
    | CorruptPolicy     // a replacement policy has no victim to offer
    | BadDimensions     // a size that must be positive is zero
    | CheckFailed       // the host found an output that is not the sum it expects

  datatype Option<+T> = None | Some(value: T)

  datatype Result<+T> = Ok(value: T) | Throw(error: Error)
  {
    predicate IsFailure() { Throw? }

    function PropagateFailure<U>(): Result<U>
      requires Throw?
    {
      Throw(error)
    }

    function Extract(): T
      requires Ok?
    {
      value
    }
  }

  /** Program counters and addresses are 64-bit unsigned words. */
  const WORD: nat := 0x1_0000_0000_0000_0000

  function Wrap(x: int): nat { x % WORD }

  function Min(a: nat, b: nat): nat { if a < b then a else b }

  function Max(a: nat, b: nat): nat { if a < b then b else a }

  /** What `rest` yields, behind what has been gathered already. */
  ghost function Prepend<T>(done: seq<T>, rest: Result<seq<T>>): Result<seq<T>> {
    if rest.Ok? then Ok(done + rest.value) else rest
  }

  lemma NothingBefore<T>(rest: Result<seq<T>>)
    ensures Prepend([], rest) == rest
  {
    if rest.Ok? { assert [] + rest.value == rest.value; }
  }

  lemma NothingAfter<T>(done: seq<T>)
    ensures Prepend(done, Ok([])) == Ok(done)
  {
    assert done + [] == done;
  }

  lemma PrependOne<T>(done: seq<T>, x: T, rest: Result<seq<T>>)
    ensures Prepend(done + [x], rest) == if rest.Ok? then Prepend(done, Ok([x] + rest.value)) else rest
  {
    if rest.Ok? { assert done + [x] + rest.value == done + ([x] + rest.value); }
  }
}
