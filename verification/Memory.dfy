/** The memory seen by one SM: banked shared memory, flat global memory and the two caches that time it. */
module MemoryModel {
  import opened Common
  import opened CacheModel

  /** Addresses from here on select shared memory. */
  const SHARED_MEM_BASE: nat := 0x1000_0000

  datatype Latencies = Latencies(shared: nat, l1: nat, l2: nat, global: nat, writeback: nat)

  /** The stored words, one per address. */
  datatype Data = Data(shared: seq<int>, global: seq<int>)

  datatype MemVal = MemVal(data: Data, banks: nat, l1: CacheVal, l2: CacheVal, latencies: Latencies)

  datatype WarpMemoryResult = WarpMemoryResult(latency: nat, transactions: nat, bankConflicts: nat, dirtyEvictions: nat)

  predicate IsShared(address: nat) { address >= SHARED_MEM_BASE }

  function LoadWord(d: Data, address: nat): Result<int> {
    if IsShared(address) then
      if address - SHARED_MEM_BASE < |d.shared| then Ok(d.shared[address - SHARED_MEM_BASE]) else Throw(OutOfRange)
    else
      if address < |d.global| then Ok(d.global[address]) else Throw(OutOfRange)
  }

  function StoreWord(d: Data, address: nat, value: int): Result<Data> {
    if IsShared(address) then
      if address - SHARED_MEM_BASE < |d.shared| then Ok(d.(shared := d.shared[address - SHARED_MEM_BASE := value]))
      else Throw(OutOfRange)
    else
      if address < |d.global| then Ok(d.(global := d.global[address := value])) else Throw(OutOfRange)
  }

  function AddWord(d: Data, address: nat, value: int): Result<Data> {
    var current :- LoadWord(d, address);
    StoreWord(d, address, current + value)
  }

  // ---------------------------------------------------------------------------------------------
  // Bank conflicts

  function WordOf(address: nat): nat { address / 4 }

  /** The distinct words of `addresses` that live in bank `b`. */
  function BankWords(addresses: seq<nat>, banks: nat, b: nat): set<nat>
    requires banks > 0
  {
    set a | a in addresses && WordOf(a) % banks == b :: WordOf(a)
  }

  /** The largest number of distinct words in any of the first `n` banks. */
  function MaxLoad(addresses: seq<nat>, banks: nat, n: nat): nat
    requires banks > 0
  {
    if n == 0 then 0 else Max(MaxLoad(addresses, banks, n - 1), |BankWords(addresses, banks, n - 1)|)
  }

  /** `SharedMemory::compute_bank_conflicts`: serialisation cycles beyond the first. */
  function BankConflicts(addresses: seq<nat>, banks: nat): nat {
    if addresses == [] || banks == 0 then 0
    else
      var load := MaxLoad(addresses, banks, banks);
      if load > 0 then load - 1 else 0
  }

  // ---------------------------------------------------------------------------------------------
  // Coalescing

  /** Insertion into an ordered set kept as a strictly increasing sequence. */
  function InsertSorted(s: seq<nat>, x: nat): seq<nat> {
    if s == [] then [x]
    else if x < s[0] then [x] + s
    else if x == s[0] then s
    else [s[0]] + InsertSorted(s[1..], x)
  }

  function LineBase(address: nat, lineSize: nat): nat
    requires lineSize > 0
  {
    address / lineSize * lineSize
  }

  /** `MemoryCoalescer::coalesce` for a positive line size: the ordered set of line bases. */
  function LineBases(addresses: seq<nat>, lineSize: nat): seq<nat>
    requires lineSize > 0
  {
    if addresses == [] then []
    else InsertSorted(LineBases(addresses[..|addresses| - 1], lineSize), LineBase(addresses[|addresses| - 1], lineSize))
  }

  function Coalesce(addresses: seq<nat>, lineSize: nat): seq<nat> {
    if lineSize == 0 then addresses else LineBases(addresses, lineSize)
  }

  // ---------------------------------------------------------------------------------------------
  // Timing through the cache hierarchy

  datatype Timed = Timed(mem: MemVal, latency: nat, dirtyEvictions: nat)

  /** `read_latency` and `write_latency`: the L1 first, the L2 (always as a read) on an L1 miss. */
  function CacheLatency(m: MemVal, address: nat, isWrite: bool): Result<Timed> {
    var first :- CacheAccess(m.l1, address, isWrite);
    if first.result.hit then Ok(Timed(m.(l1 := first.cache), m.latencies.l1, 0))
    else
      var second :- CacheAccess(m.l2, address, false);
      var fill := m.latencies.l1 + m.latencies.l2 + (if second.result.hit then 0 else m.latencies.global);
      var m' := m.(l1 := first.cache, l2 := second.cache);
      if first.result.dirtyEviction then Ok(Timed(m', fill + m.latencies.writeback, 1))
      else Ok(Timed(m', fill, 0))
  }

  /** One transaction per line, keeping the largest latency and counting dirty evictions. */
  function ServiceLines(m: MemVal, lines: seq<nat>, isWrite: bool, latency: nat, dirty: nat): Result<Timed>
    decreases |lines|
  {
    if lines == [] then Ok(Timed(m, latency, dirty))
    else
      var t :- CacheLatency(m, lines[0], isWrite);
      ServiceLines(t.mem, lines[1..], isWrite, Max(latency, t.latency), dirty + t.dirtyEvictions)
  }

  predicate Mixed(addresses: seq<nat>) {
    exists i :: 0 <= i < |addresses| && IsShared(addresses[i]) != IsShared(addresses[0])
  }

  function LocalAddresses(addresses: seq<nat>): seq<nat> {
    seq(|addresses|, i requires 0 <= i < |addresses| =>
      if IsShared(addresses[i]) then addresses[i] - SHARED_MEM_BASE else addresses[i])
  }

  datatype Serviced = Serviced(mem: MemVal, result: WarpMemoryResult)

  /** The timing half of a warp memory instruction. */
  function ServiceWarp(m: MemVal, addresses: seq<nat>, isWrite: bool): Result<Serviced> {
    if addresses == [] then Ok(Serviced(m, WarpMemoryResult(0, 0, 0, 0)))
    else if Mixed(addresses) then Throw(MixedSpaces)
    else if IsShared(addresses[0]) then
      var conflicts := BankConflicts(LocalAddresses(addresses), m.banks);
      Ok(Serviced(m, WarpMemoryResult(m.latencies.shared + conflicts, |addresses|, conflicts, 0)))
    else
      var lines := Coalesce(addresses, m.l1.lineSize);
      var t :- ServiceLines(m, lines, isWrite, 1, 0);
      var extra := if |lines| > 0 then |lines| - 1 else 0;
      Ok(Serviced(t.mem, WarpMemoryResult(t.latency + extra, |lines|, 0, t.dirtyEvictions)))
  }

  // ---------------------------------------------------------------------------------------------
  // The data half: lane by lane

  function LoadAll(d: Data, addresses: seq<nat>): (r: Result<seq<int>>)
    ensures r.Ok? ==> |r.value| == |addresses|
  {
    if addresses == [] then Ok([])
    else
      var v :- LoadWord(d, addresses[0]);
      var rest :- LoadAll(d, addresses[1..]);
      Ok([v] + rest)
  }

  /** One lane's address and the value it stores or adds. */
  datatype Write = Write(address: nat, value: int)

  function StoreAll(d: Data, writes: seq<Write>): Result<Data>
    decreases |writes|
  {
    if writes == [] then Ok(d)
    else
      var d' :- StoreWord(d, writes[0].address, writes[0].value);
      StoreAll(d', writes[1..])
  }

  function AddAll(d: Data, writes: seq<Write>): Result<Data>
    decreases |writes|
  {
    if writes == [] then Ok(d)
    else
      var d' :- AddWord(d, writes[0].address, writes[0].value);
      AddAll(d', writes[1..])
  }

  function AddressesOf(writes: seq<Write>): (a: seq<nat>)
    ensures |a| == |writes|
  {
    seq(|writes|, i requires 0 <= i < |writes| => writes[i].address)
  }

  datatype Loaded = Loaded(values: seq<int>, mem: MemVal, result: WarpMemoryResult)

  /** `warp_load`. */
  function WarpLoad(m: MemVal, addresses: seq<nat>): (r: Result<Loaded>)
    ensures r.Ok? ==> |r.value.values| == |addresses|
  {
    var s :- ServiceWarp(m, addresses, false);
    var values :- LoadAll(m.data, addresses);
    Ok(Loaded(values, s.mem, s.result))
  }

  /** `warp_store`. */
  function WarpStore(m: MemVal, writes: seq<Write>): Result<Serviced> {
    var s :- ServiceWarp(m, AddressesOf(writes), true);
    var d :- StoreAll(m.data, writes);
    Ok(Serviced(s.mem.(data := d), s.result))
  }

  /** `warp_atomic_add`. */
  function WarpAtomicAdd(m: MemVal, writes: seq<Write>): Result<Serviced> {
    var s :- ServiceWarp(m, AddressesOf(writes), true);
    var d :- AddAll(m.data, writes);
    Ok(Serviced(s.mem.(data := d), s.result))
  }
}
