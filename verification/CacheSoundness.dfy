/** Caches built by the constructor never throw, and neither do memory instructions whose addresses are good. */
module CacheSoundness {
  import opened Common
  import opened Isa
  import opened CacheModel
  import opened CacheRuns
  import opened CacheStats
  import opened WarpModel
  import opened MemoryModel
  import opened WarpMemory
  import opened ExecutorModel
  import opened Progress

  /** A cache in a state its own policy can reach. */
  ghost predicate Sound(c: CacheVal) {
    || (exists recents :: LruCache(c, recents))
    || (exists lists :: FifoCache(c, lists))
    || RandomCache(c)
  }

  lemma FreshSound(numSets: nat, assoc: nat, lineSize: nat, name: PolicyName)
    requires FreshCache(numSets, assoc, lineSize, name).Ok?
    ensures Sound(FreshCache(numSets, assoc, lineSize, name).value)
  {
    match name
    case LRU => FreshLru(numSets, assoc, lineSize);
    case FIFO => FreshFifo(numSets, assoc, lineSize);
    case RANDOM(_) =>
  }

  lemma RunOne(c: CacheVal, q: Request)
    ensures Run(c, [q]).Ok? <==> CacheAccess(c, q.address, q.isWrite).Ok?
    ensures Run(c, [q]).Ok? ==> Run(c, [q]).value.cache == CacheAccess(c, q.address, q.isWrite).value.cache
  {
    hide CacheAccess;
    assert [q][..|[q]| - 1] == [];
    assert Run(c, []).value.cache == c;
  }

  /** A sound cache serves every access and stays sound. */
  lemma SoundAccess(c: CacheVal, address: nat, isWrite: bool)
    requires Sound(c)
    ensures CacheAccess(c, address, isWrite).Ok? && Sound(CacheAccess(c, address, isWrite).value.cache)
  {
    hide CacheAccess, LruCache, FifoCache, RandomCache, Run;
    var q := Request(address, isWrite);
    RunOne(c, q);
    if recents :| LruCache(c, recents) {
      LruRun(c, recents, [q]);
    } else if lists :| FifoCache(c, lists) {
      FifoRun(c, lists, [q]);
    } else {
      RandomRun(c, [q]);
    }
  }

  ghost predicate SoundMemory(m: MemVal) { Sound(m.l1) && Sound(m.l2) }

  lemma SoundLatency(m: MemVal, address: nat, isWrite: bool)
    requires SoundMemory(m)
    ensures CacheLatency(m, address, isWrite).Ok? && SoundMemory(CacheLatency(m, address, isWrite).value.mem)
  {
    hide Sound, CacheAccess;
    SoundAccess(m.l1, address, isWrite);
    SoundAccess(m.l2, address, false);
  }

  lemma {:induction false} SoundLines(m: MemVal, lines: seq<nat>, isWrite: bool, latency: nat, dirty: nat)
    requires SoundMemory(m)
    ensures var r := ServiceLines(m, lines, isWrite, latency, dirty); r.Ok? && SoundMemory(r.value.mem)
    decreases |lines|
  {
    hide SoundMemory, CacheLatency;
    if lines != [] {
      SoundLatency(m, lines[0], isWrite);
      var t := CacheLatency(m, lines[0], isWrite).value;
      SoundLines(t.mem, lines[1..], isWrite, Max(latency, t.latency), dirty + t.dirtyEvictions);
    }
  }

  lemma SoundService(m: MemVal, addresses: seq<nat>, isWrite: bool)
    requires SoundMemory(m) && (addresses != [] ==> !Mixed(addresses))
    ensures ServiceWarp(m, addresses, isWrite).Ok? && SoundMemory(ServiceWarp(m, addresses, isWrite).value.mem)
  {
    hide SoundMemory, ServiceLines, BankConflicts, Coalesce, LocalAddresses;
    if addresses != [] && !IsShared(addresses[0]) {
      SoundLines(m, Coalesce(addresses, m.l1.lineSize), isWrite, 1, 0);
    }
  }

  // ---------------------------------------------------------------------------------------------
  // Data

  /** The address exists and lies in shared memory exactly when `inShared`. */
  predicate GoodAddress(d: Data, a: nat, inShared: bool) { InRange(d, a) && IsShared(a) == inShared }

  ghost predicate GoodAddresses(d: Data, addresses: seq<nat>, inShared: bool) {
    forall a :: a in addresses ==> GoodAddress(d, a, inShared)
  }

  lemma LoadsSucceed(d: Data, addresses: seq<nat>, inShared: bool)
    requires GoodAddresses(d, addresses, inShared)
    ensures LoadAll(d, addresses).Ok?
  {
    if addresses != [] {
      assert addresses[0] in addresses;
      LoadsSucceed(d, addresses[1..], inShared);
    }
  }

  lemma StoresSucceed(d: Data, writes: seq<Write>, inShared: bool)
    requires forall w :: w in writes ==> GoodAddress(d, w.address, inShared)
    ensures StoreAll(d, writes).Ok?
    ensures AddAll(d, writes).Ok?
    decreases |writes|
  {
    if writes != [] {
      var w := writes[0];
      assert StoreWord(d, w.address, w.value).Ok? && AddWord(d, w.address, w.value).Ok?;
      var stored, added := StoreWord(d, w.address, w.value).value, AddWord(d, w.address, w.value).value;
      StoresSucceed(stored, writes[1..], inShared);
      StoresSucceed(added, writes[1..], inShared);
    }
  }

  lemma OneSpace(d: Data, addresses: seq<nat>, inShared: bool)
    requires GoodAddresses(d, addresses, inShared)
    ensures addresses != [] ==> !Mixed(addresses)
  {
    forall i | 0 <= i < |addresses|
      ensures IsShared(addresses[i]) == inShared
    {
      assert addresses[i] in addresses;
    }
  }

  /** What a lane needs for a data instruction not to throw. */
  predicate LaneGood(inst: Instruction, t: Thread, d: Data, inShared: bool) {
    match inst.opcode
    case LOAD =>
      var a := Address(t, inst.src1, inst.immediate);
      a.Ok? && GoodAddress(d, a.value, inShared) && 0 <= inst.dst < |t.registers|
    case STORE | ATOMIC_ADD =>
      var w := WriteRequest(inst, t);
      w.Ok? && GoodAddress(d, w.value.address, inShared)
    case BRANCH | SSY | SYNC | BARRIER => true
    case _ => AluThread(inst, t).Ok?
  }

  ghost predicate LanesGood(inst: Instruction, ts: seq<Thread>, mask: set<nat>, d: Data, inShared: bool, i: nat) {
    forall l :: i <= l < |ts| && l in mask ==> LaneGood(inst, ts[l], d, inShared)
  }

  lemma AluSucceeds(inst: Instruction, ts: seq<Thread>, mask: set<nat>, d: Data, inShared: bool, i: nat)
    requires IsAlu(inst.opcode) && i <= |ts| && LanesGood(inst, ts, mask, d, inShared, i)
    ensures AluLanes(inst, ts, mask, i).Ok?
    decreases |ts| - i
  {
    hide AluThread;
    if i < |ts| {
      if i in mask {
        assert LaneGood(inst, ts[i], d, inShared);
        AluSucceeds(inst, ts[i := AluThread(inst, ts[i]).value], mask, d, inShared, i + 1);
      } else {
        AluSucceeds(inst, ts, mask, d, inShared, i + 1);
      }
    }
  }

  lemma AddressesSucceed(inst: Instruction, ts: seq<Thread>, mask: set<nat>, d: Data, inShared: bool, i: nat)
    requires inst.opcode == LOAD && i <= |ts| && LanesGood(inst, ts, mask, d, inShared, i)
    ensures var r := LoadAddresses(inst, ts, mask, i); r.Ok? && GoodAddresses(d, r.value, inShared)
    decreases |ts| - i
  {
    hide Address, GoodAddress;
    if i < |ts| {
      AddressesSucceed(inst, ts, mask, d, inShared, i + 1);
      if i in mask {
        assert LaneGood(inst, ts[i], d, inShared);
      }
    }
  }

  lemma RequestsSucceed(inst: Instruction, ts: seq<Thread>, mask: set<nat>, d: Data, inShared: bool, i: nat)
    requires inst.opcode in {STORE, ATOMIC_ADD} && i <= |ts| && LanesGood(inst, ts, mask, d, inShared, i)
    ensures var r := WriteRequests(inst, ts, mask, i);
            r.Ok? && forall w :: w in r.value ==> GoodAddress(d, w.address, inShared)
    decreases |ts| - i
  {
    hide WriteRequest, GoodAddress;
    if i < |ts| {
      RequestsSucceed(inst, ts, mask, d, inShared, i + 1);
      if i in mask {
        assert LaneGood(inst, ts[i], d, inShared);
      }
    }
  }

  lemma ScatterSucceeds(inst: Instruction, ts: seq<Thread>, mask: set<nat>, values: seq<int>, d: Data, inShared: bool,
                        i: nat)
    requires i <= |ts| && forall l :: i <= l < |ts| && l in mask ==> 0 <= inst.dst < |ts[l].registers|
    ensures Scatter(inst.dst, ts, mask, values, i).Ok?
    decreases |ts| - i
  {
    if i < |ts| && values != [] {
      if i in mask {
        ScatterSucceeds(inst, ts[i := WriteReg(ts[i], inst.dst, values[0]).value], mask, values[1..], d, inShared,
          i + 1);
      } else {
        ScatterSucceeds(inst, ts, mask, values, d, inShared, i + 1);
      }
    }
  }

  /** A data instruction whose active lanes are all good does not throw on a memory with sound caches. */
  lemma DataSucceeds(inst: Instruction, w: WarpVal, m: MemVal, inShared: bool)
    requires SoundMemory(m) && inst.opcode !in {BRANCH, SSY, SYNC, BARRIER}
    requires LanesGood(inst, w.threads, w.mask, m.data, inShared, 0)
    ensures Execute(inst, w, m).Ok?
  {
    if inst.opcode == LOAD {
      LoadSucceeds(inst, w, m, inShared);
    } else if IsAlu(inst.opcode) {
      AluSucceeds(inst, w.threads, w.mask, m.data, inShared, 0);
    } else {
      SendSucceeds(inst, w, m, inShared);
    }
  }

  lemma LoadSucceeds(inst: Instruction, w: WarpVal, m: MemVal, inShared: bool)
    requires SoundMemory(m) && inst.opcode == LOAD && LanesGood(inst, w.threads, w.mask, m.data, inShared, 0)
    ensures Execute(inst, w, m).Ok?
  {
    AddressesSucceed(inst, w.threads, w.mask, m.data, inShared, 0);
    var addresses := LoadAddresses(inst, w.threads, w.mask, 0).value;
    DestinationsGood(inst, w.threads, w.mask, m.data, inShared);
    hide LoadAddresses, LanesGood, ServiceWarp, LoadAll, Scatter, SoundMemory, GoodAddresses;
    OneSpace(m.data, addresses, inShared);
    SoundService(m, addresses, false);
    LoadsSucceed(m.data, addresses, inShared);
    ScatterSucceeds(inst, w.threads, w.mask, LoadAll(m.data, addresses).value, m.data, inShared, 0);
  }

  lemma DestinationsGood(inst: Instruction, ts: seq<Thread>, mask: set<nat>, d: Data, inShared: bool)
    requires inst.opcode == LOAD && LanesGood(inst, ts, mask, d, inShared, 0)
    ensures forall l :: 0 <= l < |ts| && l in mask ==> 0 <= inst.dst < |ts[l].registers|
  {
    forall l | 0 <= l < |ts| && l in mask
      ensures 0 <= inst.dst < |ts[l].registers|
    {
      assert LaneGood(inst, ts[l], d, inShared);
    }
  }

  lemma SendSucceeds(inst: Instruction, w: WarpVal, m: MemVal, inShared: bool)
    requires SoundMemory(m) && inst.opcode in {STORE, ATOMIC_ADD}
    requires LanesGood(inst, w.threads, w.mask, m.data, inShared, 0)
    ensures Execute(inst, w, m).Ok?
  {
    hide LanesGood, WriteRequests, ServiceWarp, StoreAll, AddAll, SoundMemory, CollisionStalls, GoodAddress, Mixed;
    RequestsSucceed(inst, w.threads, w.mask, m.data, inShared, 0);
    var writes := WriteRequests(inst, w.threads, w.mask, 0).value;
    RequestAddresses(m.data, writes, inShared);
    SoundService(m, AddressesOf(writes), true);
    StoresSucceed(m.data, writes, inShared);
  }

  lemma RequestAddresses(d: Data, writes: seq<Write>, inShared: bool)
    requires forall w :: w in writes ==> GoodAddress(d, w.address, inShared)
    ensures AddressesOf(writes) != [] ==> !Mixed(AddressesOf(writes))
  {
    var addresses := AddressesOf(writes);
    forall i | 0 <= i < |addresses|
      ensures GoodAddress(d, addresses[i], inShared)
    {
      assert writes[i] in writes;
    }
  }

  /** Lanes that would all be good on some memory address one space, and can throw over nothing but an address. */
  lemma DataFaults(inst: Instruction, w: WarpVal, m: MemVal, other: Data, inShared: bool)
    requires SoundMemory(m) && inst.opcode !in {BRANCH, SSY, SYNC, BARRIER}
    requires LanesGood(inst, w.threads, w.mask, other, inShared, 0)
    ensures Execute(inst, w, m).Throw? ==> Execute(inst, w, m).error == OutOfRange
  {
    hide LanesGood, LoadAddresses, WriteRequests, ServiceWarp, LoadAll, StoreAll, AddAll, Scatter, AluLanes,
         SoundMemory, GoodAddresses, GoodAddress, CollisionStalls, Mixed;
    if inst.opcode == LOAD {
      AddressesSucceed(inst, w.threads, w.mask, other, inShared, 0);
      var addresses := LoadAddresses(inst, w.threads, w.mask, 0).value;
      OneSpace(other, addresses, inShared);
      SoundService(m, addresses, false);
      WordThrows(m.data, addresses, []);
      if LoadAll(m.data, addresses).Ok? {
        ScatterThrows(inst.dst, w.threads, w.mask, LoadAll(m.data, addresses).value, 0);
      }
    } else if IsAlu(inst.opcode) {
      AluThrows(inst, w.threads, w.mask, 0);
    } else {
      RequestsSucceed(inst, w.threads, w.mask, other, inShared, 0);
      var writes := WriteRequests(inst, w.threads, w.mask, 0).value;
      RequestAddresses(other, writes, inShared);
      SoundService(m, AddressesOf(writes), true);
      WordThrows(m.data, [], writes);
    }
  }

  /** Instructions keep caches sound and memories their size. */
  lemma ExecuteSound(inst: Instruction, w: WarpVal, m: MemVal)
    requires SoundMemory(m) && Execute(inst, w, m).Ok?
    ensures SoundMemory(Execute(inst, w, m).value.mem) && SameRange(m.data, Execute(inst, w, m).value.mem.data)
  {
    hide SoundMemory, ServiceWarp, LoadAll, StoreAll, AddAll, LoadAddresses, WriteRequests, Scatter, AluLanes,
         CollisionStalls, Mixed;
    if inst.opcode == LOAD {
      var addresses := LoadAddresses(inst, w.threads, w.mask, 0).value;
      ServiceSound(m, addresses, false);
    } else if inst.opcode == STORE {
      var writes := WriteRequests(inst, w.threads, w.mask, 0).value;
      ServiceSound(m, AddressesOf(writes), true);
      StoreLastWins(m.data, writes, 0);
    } else if inst.opcode == ATOMIC_ADD {
      var writes := WriteRequests(inst, w.threads, w.mask, 0).value;
      ServiceSound(m, AddressesOf(writes), true);
      AddSums(m.data, writes, 0);
    }
  }

  lemma ServiceSound(m: MemVal, addresses: seq<nat>, isWrite: bool)
    requires SoundMemory(m) && ServiceWarp(m, addresses, isWrite).Ok?
    ensures var m' := ServiceWarp(m, addresses, isWrite).value.mem;
            m'.data == m.data && forall d :: SoundMemory(m'.(data := d))
  {
    SoundService(m, addresses, isWrite);
    ServiceWarpKeepsData(m, addresses, isWrite);
  }
}
