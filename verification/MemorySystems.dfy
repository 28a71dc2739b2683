/** The memory system an SM sees for one tick: shared and global memory, and the two caches that time its accesses. */
module MemorySystems {
  import opened Common
  import opened CacheModel
  import opened MemoryModel
  import opened WarpMemory
  import opened Caches
  import opened Memories

  class MemorySystem {
    const shared: SharedMemory
    const global: GlobalMemory
    const l1: Cache
    const l2: Cache
    const latencies: Latencies

    /** Everything an access may change; the system itself holds only references. */
    ghost function Repr(): set<object> {
      {shared.data, global.data} + l1.Repr() + l2.Repr()
    }

    ghost predicate Valid()
      reads l1, l2
    {
      l1.Valid() && l2.Valid() && l1.Repr() !! l2.Repr() && shared.data != global.data
    }

    ghost function Abs(): MemVal
      requires Valid()
      reads l1, l2, Repr()
    {
      MemVal(Data(shared.data[..], global.data[..]), shared.numBanks, l1.Abs(), l2.Abs(), latencies)
    }

    constructor (shared: SharedMemory, l1: Cache, l2: Cache, global: GlobalMemory, latencies: Latencies)
      requires l1.Valid() && l2.Valid() && l1.Repr() !! l2.Repr() && shared.data != global.data
      ensures this.shared == shared && this.l1 == l1 && this.l2 == l2 && this.global == global
      ensures this.latencies == latencies
    {
      this.shared := shared;
      this.l1 := l1;
      this.l2 := l2;
      this.global := global;
      this.latencies := latencies;
    }

    /** The outcome of a timed cache access. */
    ghost predicate TimedAs(spec: Result<Timed>, r: Result<nat>, dirty: nat)
      requires Valid()
      reads l1, l2, Repr()
    {
      match spec
      case Ok(t) => r == Ok(t.latency) && dirty == t.dirtyEvictions && Abs() == t.mem
      case Throw(e) => r == Throw(e)
    }

    method ReadLatency(address: nat) returns (r: Result<nat>, dirtyEvictions: nat)
      requires Valid()
      modifies l1.Repr(), l2.Repr()
      ensures Valid() && TimedAs(CacheLatency(old(Abs()), address, false), r, dirtyEvictions)
    {
      hide CacheAccess, Cache.Abs, Cache.SetAt, Cache.Valid;
      dirtyEvictions := 0;
      var l1Result := l1.Access(address);
      if l1Result.Throw? {
        return Throw(l1Result.error), 0;
      }
      var latency := latencies.l1;
      if l1Result.value.hit {
        return Ok(latency), 0;
      }
      var l2Result := l2.Access(address);
      if l2Result.Throw? {
        return Throw(l2Result.error), 0;
      }
      if l2Result.value.hit {
        latency := latency + latencies.l2;
      } else {
        latency := latency + (latencies.l2 + latencies.global);
      }
      if l1Result.value.dirtyEviction {
        latency := latency + latencies.writeback;
        dirtyEvictions := 1;
      }
      r := Ok(latency);
    }

    method WriteLatency(address: nat) returns (r: Result<nat>, dirtyEvictions: nat)
      requires Valid()
      modifies l1.Repr(), l2.Repr()
      ensures Valid() && TimedAs(CacheLatency(old(Abs()), address, true), r, dirtyEvictions)
    {
      hide CacheAccess, Cache.Abs, Cache.SetAt, Cache.Valid;
      dirtyEvictions := 0;
      HitsEvictNothing(l1.Abs(), address, true);
      var l1Result := l1.Write(address);
      if l1Result.Throw? {
        return Throw(l1Result.error), 0;
      }
      var latency := latencies.l1;
      if !l1Result.value.hit {
        var l2Result := l2.Access(address);
        if l2Result.Throw? {
          return Throw(l2Result.error), 0;
        }
        if l2Result.value.hit {
          latency := latency + latencies.l2;
        } else {
          latency := latency + (latencies.l2 + latencies.global);
        }
      }
      if l1Result.value.dirtyEviction {
        latency := latency + latencies.writeback;
        dirtyEvictions := 1;
      }
      r := Ok(latency);
    }

    ghost function DataNow(): Data
      reads shared.data, global.data
    {
      Data(shared.data[..], global.data[..])
    }

    /** One transaction per line: the largest latency and the dirty evictions. */
    method ServiceTransactions(lines: seq<nat>, isWrite: bool) returns (r: Result<(nat, nat)>)
      requires Valid()
      modifies l1.Repr(), l2.Repr()
      ensures Valid()
      ensures match Transactions(old(Abs()), lines, isWrite)
              case Ok(t) => r == Ok((t.latency, t.dirtyEvictions)) && Abs() == t.mem
              case Throw(e) => r == Throw(e)
    {
      hide CacheLatency, Cache.Abs, Cache.SetAt, Cache.Valid;
      var maxLatency: nat, totalDirty: nat := 1, 0;
      for i := 0 to |lines|
        invariant Valid()
        invariant ServiceLines(Abs(), lines[i..], isWrite, maxLatency, totalDirty) ==
                  ServiceLines(old(Abs()), lines, isWrite, 1, 0)
      {
        ServiceNext(Abs(), lines[i..], isWrite, maxLatency, totalDirty);
        assert lines[i..][1..] == lines[i + 1..];
        var latency: Result<nat>;
        var dirty: nat;
        if isWrite {
          latency, dirty := WriteLatency(lines[i]);
        } else {
          latency, dirty := ReadLatency(lines[i]);
        }
        if latency.Throw? {
          return Throw(latency.error);
        }
        maxLatency := Max(maxLatency, latency.value);
        totalDirty := totalDirty + dirty;
      }
      return Ok((maxLatency, totalDirty));
    }

    /** Shared accesses cost the shared latency and their bank conflicts. */
    method ServiceShared(addresses: seq<nat>) returns (result: WarpMemoryResult)
      requires Valid() && addresses != [] && !Mixed(addresses) && IsShared(addresses[0])
      ensures var conflicts := BankConflicts(LocalAddresses(addresses), Abs().banks);
              result == WarpMemoryResult(Abs().latencies.shared + conflicts, |addresses|, conflicts, 0)
      ensures Valid() && Abs() == old(Abs())
    {
      hide Cache.Abs, Cache.SetAt, Cache.Valid, BankConflicts, Mixed, LocalAddresses;
      var locals := Localise(addresses);
      var conflicts := shared.ComputeBankConflicts(locals);
      result := WarpMemoryResult(latencies.shared + conflicts, |addresses|, conflicts, 0);
    }

    /** Global accesses cost their slowest line and a cycle for each further line. */
    method ServiceGlobal(addresses: seq<nat>, isWrite: bool) returns (r: Result<WarpMemoryResult>)
      requires Valid()
      modifies l1.Repr(), l2.Repr()
      ensures Valid()
      ensures var lines := Coalesce(addresses, old(Abs()).l1.lineSize);
              match Transactions(old(Abs()), lines, isWrite)
              case Throw(e) => r == Throw(e)
              case Ok(t) =>
                && r == Ok(WarpMemoryResult(t.latency + (if |lines| > 0 then |lines| - 1 else 0), |lines|, 0,
                   t.dirtyEvictions))
                && Abs() == t.mem
    {
      hide Cache.Abs, Cache.SetAt, Cache.Valid, Coalesce, Transactions;
      var transactions := CoalesceAddresses(addresses, l1.lineSize);
      var timed :- ServiceTransactions(transactions, isWrite);
      var extra := if |transactions| > 0 then |transactions| - 1 else 0;
      return Ok(WarpMemoryResult(timed.0 + extra, |transactions|, 0, timed.1));
    }

    /** The timing of one warp instruction. */
    method Service(addresses: seq<nat>, isWrite: bool) returns (r: Result<WarpMemoryResult>)
      requires Valid()
      modifies l1.Repr(), l2.Repr()
      ensures Valid()
      ensures match ServiceWarp(old(Abs()), addresses, isWrite)
              case Ok(s) => r == Ok(s.result) && Abs() == s.mem
              case Throw(e) => r == Throw(e)
    {
      hide Cache.Abs, Cache.SetAt, Cache.Valid, Coalesce, Transactions, BankConflicts, Mixed, LocalAddresses,
           ServiceWarp;
      ServiceCases(Abs(), addresses, isWrite);
      if addresses == [] {
        return Ok(WarpMemoryResult(0, 0, 0, 0));
      }
      var mixed := AreMixed(addresses);
      if mixed {
        return Throw(MixedSpaces);
      }
      if IsShared(addresses[0]) {
        var result := ServiceShared(addresses);
        return Ok(result);
      }
      r := ServiceGlobal(addresses, isWrite);
    }

    method LoadLane(address: nat) returns (r: Result<int>)
      ensures r == LoadWord(DataNow(), address)
    {
      if IsShared(address) {
        r := shared.Load(address - SHARED_MEM_BASE);
      } else {
        r := global.Load(address);
      }
    }

    method StoreLane(address: nat, value: int) returns (r: Result<()>)
      requires shared.data != global.data
      modifies shared.data, global.data
      ensures match StoreWord(old(DataNow()), address, value)
              case Ok(d) => r == Ok(()) && DataNow() == d
              case Throw(e) => r == Throw(e)
    {
      if IsShared(address) {
        r := shared.Store(address - SHARED_MEM_BASE, value);
      } else {
        r := global.Store(address, value);
      }
    }

    /** Each lane reads its own word. */
    method LoadLanes(addresses: seq<nat>) returns (r: Result<seq<int>>)
      ensures r == LoadAll(DataNow(), addresses)
    {
      hide LoadWord;
      var values: seq<int> := [];
      NothingBefore(LoadAll(DataNow(), addresses));
      for i := 0 to |addresses|
        invariant |values| == i
        invariant LoadAll(DataNow(), addresses) == Prepend(values, LoadAll(DataNow(), addresses[i..]))
      {
        LoadNext(DataNow(), values, addresses[i..]);
        assert addresses[i..][1..] == addresses[i + 1..];
        var v :- LoadLane(addresses[i]);
        values := values + [v];
      }
      NothingAfter(values);
      return Ok(values);
    }

    /** The lanes write in order. */
    method StoreLanes(addresses: seq<nat>, values: seq<int>) returns (r: Result<()>)
      requires shared.data != global.data && |addresses| == |values|
      modifies shared.data, global.data
      ensures match StoreAll(old(DataNow()), Zip(addresses, values))
              case Ok(d) => r == Ok(()) && DataNow() == d
              case Throw(e) => r == Throw(e)
    {
      hide StoreWord;
      var writes := Zip(addresses, values);
      for i := 0 to |addresses|
        invariant StoreAll(DataNow(), writes[i..]) == StoreAll(old(DataNow()), writes)
      {
        assert writes[i..][0] == Write(addresses[i], values[i]) && writes[i..][1..] == writes[i + 1..];
        var _ :- StoreLane(addresses[i], values[i]);
      }
      return Ok(());
    }

    /** The lanes add in order, each to what it finds. */
    method AddLanes(addresses: seq<nat>, values: seq<int>) returns (r: Result<()>)
      requires shared.data != global.data && |addresses| == |values|
      modifies shared.data, global.data
      ensures match AddAll(old(DataNow()), Zip(addresses, values))
              case Ok(d) => r == Ok(()) && DataNow() == d
              case Throw(e) => r == Throw(e)
    {
      hide StoreWord, LoadWord;
      var writes := Zip(addresses, values);
      for i := 0 to |addresses|
        invariant AddAll(DataNow(), writes[i..]) == AddAll(old(DataNow()), writes)
      {
        assert writes[i..][0] == Write(addresses[i], values[i]) && writes[i..][1..] == writes[i + 1..];
        var current :- LoadLane(addresses[i]);
        var _ :- StoreLane(addresses[i], current + values[i]);
      }
      return Ok(());
    }

    /** Every line is serviced once; then each lane reads its own word. */
    method WarpLoad(addresses: seq<nat>) returns (r: Result<(seq<int>, WarpMemoryResult)>)
      requires Valid()
      modifies l1.Repr(), l2.Repr()
      ensures Valid()
      ensures match MemoryModel.WarpLoad(old(Abs()), addresses)
              case Ok(l) => r == Ok((l.values, l.result)) && Abs() == l.mem
              case Throw(e) => r == Throw(e)
    {
      hide ServiceWarp, Cache.Abs, Cache.SetAt, Cache.Valid, LoadWord;
      ServiceWarpKeepsData(old(Abs()), addresses, false);
      var result :- Service(addresses, false);
      var values :- LoadLanes(addresses);
      return Ok((values, result));
    }

    method WarpStore(addresses: seq<nat>, values: seq<int>) returns (r: Result<WarpMemoryResult>)
      requires Valid() && |addresses| == |values|
      modifies Repr()
      ensures Valid()
      ensures match MemoryModel.WarpStore(old(Abs()), Zip(addresses, values))
              case Ok(s) => r == Ok(s.result) && Abs() == s.mem
              case Throw(e) => r == Throw(e)
    {
      hide ServiceWarp, Cache.Abs, Cache.SetAt, Cache.Valid, StoreWord;
      assert AddressesOf(Zip(addresses, values)) == addresses;
      ServiceWarpKeepsData(old(Abs()), addresses, true);
      var result :- Service(addresses, true);
      var _ :- StoreLanes(addresses, values);
      return Ok(result);
    }

    method WarpAtomicAdd(addresses: seq<nat>, values: seq<int>) returns (r: Result<WarpMemoryResult>)
      requires Valid() && |addresses| == |values|
      modifies Repr()
      ensures Valid()
      ensures match MemoryModel.WarpAtomicAdd(old(Abs()), Zip(addresses, values))
              case Ok(s) => r == Ok(s.result) && Abs() == s.mem
              case Throw(e) => r == Throw(e)
    {
      hide ServiceWarp, Cache.Abs, Cache.SetAt, Cache.Valid, StoreWord, LoadWord;
      assert AddressesOf(Zip(addresses, values)) == addresses;
      ServiceWarpKeepsData(old(Abs()), addresses, true);
      var result :- Service(addresses, true);
      var _ :- AddLanes(addresses, values);
      return Ok(result);
    }
  }

  /** One transaction per line, from the latency an instruction has at least. */
  ghost function Transactions(m: MemVal, lines: seq<nat>, isWrite: bool): Result<Timed> {
    ServiceLines(m, lines, isWrite, 1, 0)
  }

  lemma ServiceCases(m: MemVal, addresses: seq<nat>, isWrite: bool)
    ensures ServiceWarp(m, addresses, isWrite) ==
            if addresses == [] then Ok(Serviced(m, WarpMemoryResult(0, 0, 0, 0)))
            else if Mixed(addresses) then Throw(MixedSpaces)
            else if IsShared(addresses[0]) then
              var conflicts := BankConflicts(LocalAddresses(addresses), m.banks);
              Ok(Serviced(m, WarpMemoryResult(m.latencies.shared + conflicts, |addresses|, conflicts, 0)))
            else
              var lines := Coalesce(addresses, m.l1.lineSize);
              match Transactions(m, lines, isWrite)
              case Throw(e) => Throw(e)
              case Ok(t) =>
                var extra := if |lines| > 0 then |lines| - 1 else 0;
                Ok(Serviced(t.mem, WarpMemoryResult(t.latency + extra, |lines|, 0, t.dirtyEvictions)))
  {
    hide BankConflicts, Coalesce, Mixed, LocalAddresses, CacheLatency;
  }

  function Zip(addresses: seq<nat>, values: seq<int>): (w: seq<Write>)
    requires |addresses| == |values|
    ensures |w| == |addresses|
  {
    seq(|addresses|, i requires 0 <= i < |addresses| => Write(addresses[i], values[i]))
  }

  lemma LoadNext(d: Data, values: seq<int>, addresses: seq<nat>)
    requires addresses != []
    ensures Prepend(values, LoadAll(d, addresses)) ==
            if LoadWord(d, addresses[0]).Ok? then Prepend(values + [LoadWord(d, addresses[0]).value],
              LoadAll(d, addresses[1..]))
            else Throw(LoadWord(d, addresses[0]).error)
  {
    hide LoadWord;
    if LoadWord(d, addresses[0]).Ok? {
      PrependOne(values, LoadWord(d, addresses[0]).value, LoadAll(d, addresses[1..]));
    }
  }

  lemma ServiceNext(m: MemVal, lines: seq<nat>, isWrite: bool, latency: nat, dirty: nat)
    requires lines != []
    ensures ServiceLines(m, lines, isWrite, latency, dirty) ==
            match CacheLatency(m, lines[0], isWrite)
            case Throw(e) => Throw(e)
            case Ok(t) => ServiceLines(t.mem, lines[1..], isWrite, Max(latency, t.latency), dirty + t.dirtyEvictions)
  {
    hide CacheLatency;
  }

  /** The check for one address space. */
  method AreMixed(addresses: seq<nat>) returns (mixed: bool)
    requires addresses != []
    ensures mixed <==> Mixed(addresses)
  {
    for i := 0 to |addresses|
      invariant forall j :: 0 <= j < i ==> IsShared(addresses[j]) == IsShared(addresses[0])
    {
      if IsShared(addresses[i]) != IsShared(addresses[0]) {
        return true;
      }
    }
    return false;
  }

  method Localise(addresses: seq<nat>) returns (locals: seq<nat>)
    requires addresses != [] && !Mixed(addresses) && IsShared(addresses[0])
    ensures locals == LocalAddresses(addresses)
  {
    locals := [];
    for i := 0 to |addresses|
      invariant locals == LocalAddresses(addresses)[..i]
    {
      assert IsShared(addresses[i]) == IsShared(addresses[0]);
      locals := locals + [addresses[i] - SHARED_MEM_BASE];
    }
  }

  lemma AliveMemory(memory: MemorySystem)
    ensures forall o :: o in memory.Repr() ==> allocated(o)
  {
  }

  lemma HitsEvictNothing(c: CacheVal, address: nat, isWrite: bool)
    ensures CacheAccess(c, address, isWrite).Ok? && CacheAccess(c, address, isWrite).value.result.hit ==>
              !CacheAccess(c, address, isWrite).value.result.dirtyEviction
  {
  }
}
