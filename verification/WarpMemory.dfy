/** Warp memory instructions mean what their lanes mean one by one, whatever the caches do. */
module WarpMemory {
  import opened Common
  import opened Sequences
  import opened CacheModel
  import opened MemoryModel
  import Cyclic

  // ---------------------------------------------------------------------------------------------
  // Coalescing

  ghost predicate Increasing(s: seq<nat>) { forall i, j :: 0 <= i < j < |s| ==> s[i] < s[j] }

  ghost function Bases(addresses: seq<nat>, lineSize: nat): set<nat>
    requires lineSize > 0
  {
    set a | a in addresses :: LineBase(a, lineSize)
  }

  lemma {:induction false} InsertSortedFacts(s: seq<nat>, x: nat)
    requires Increasing(s)
    ensures Increasing(InsertSorted(s, x))
    ensures forall y :: y in InsertSorted(s, x) <==> y == x || y in s
  {
    if s != [] && x > s[0] {
      InsertSortedFacts(s[1..], x);
      assert s == [s[0]] + s[1..];
      var r := InsertSorted(s[1..], x);
      assert InsertSorted(s, x) == [s[0]] + r;
      ConsIncreasing(s[0], r);
    }
  }

  lemma ConsIncreasing(x: nat, s: seq<nat>)
    requires Increasing(s) && forall y :: y in s ==> x < y
    ensures Increasing([x] + s)
  {
    forall i, j | 0 <= i < j < |[x] + s|
      ensures ([x] + s)[i] < ([x] + s)[j]
    {
      assert ([x] + s)[j] == s[j - 1] && s[j - 1] in s;
      if i > 0 { assert ([x] + s)[i] == s[i - 1]; }
    }
  }

  /** Coalescing yields the strictly increasing list of exactly the line bases the addresses fall in. */
  lemma CoalesceFacts(addresses: seq<nat>, lineSize: nat)
    requires lineSize > 0
    ensures Increasing(Coalesce(addresses, lineSize))
    ensures forall b :: b in Coalesce(addresses, lineSize) <==> b in Bases(addresses, lineSize)
  {
    if addresses != [] {
      var init, last := addresses[..|addresses| - 1], addresses[|addresses| - 1];
      CoalesceFacts(init, lineSize);
      InsertSortedFacts(LineBases(init, lineSize), LineBase(last, lineSize));
      assert addresses == init + [last];
      assert Bases(addresses, lineSize) == Bases(init, lineSize) + {LineBase(last, lineSize)};
    }
  }

  /** Lines at the multiples of the line size that `lines` cover every address. */
  ghost predicate Covers(lines: set<nat>, addresses: seq<nat>, lineSize: nat)
    requires lineSize > 0
  {
    && (forall b :: b in lines ==> b % lineSize == 0)
    && (forall a :: a in addresses ==> exists b :: b in lines && b <= a < b + lineSize)
  }

  lemma BaseUnique(address: nat, lineSize: nat, b: nat)
    requires lineSize > 0 && b % lineSize == 0 && b <= address < b + lineSize
    ensures b == LineBase(address, lineSize)
  {
    var q := b / lineSize;
    assert b == lineSize * q;
    Cyclic.DivisionUnique(lineSize, q, address - b, address / lineSize, address % lineSize);
  }

  lemma BaseCovers(address: nat, lineSize: nat)
    requires lineSize > 0
    ensures LineBase(address, lineSize) % lineSize == 0
    ensures LineBase(address, lineSize) <= address < LineBase(address, lineSize) + lineSize
  {
    Cyclic.ModOf(0, lineSize, address / lineSize);
    assert address / lineSize * lineSize == 0 + lineSize * (address / lineSize);
  }

  /** The transactions are the least set of lines that covers the addresses: every covering set contains them. */
  lemma CoalesceMinimal(addresses: seq<nat>, lineSize: nat, lines: set<nat>)
    requires lineSize > 0
    ensures Covers(Elements(Coalesce(addresses, lineSize)), addresses, lineSize)
    ensures Covers(lines, addresses, lineSize) ==> Elements(Coalesce(addresses, lineSize)) <= lines
    ensures Covers(lines, addresses, lineSize) ==> |Coalesce(addresses, lineSize)| <= |lines|
  {
    var c := Coalesce(addresses, lineSize);
    CoalesceFacts(addresses, lineSize);
    forall a | a in addresses
      ensures LineBase(a, lineSize) in Elements(c)
      ensures LineBase(a, lineSize) % lineSize == 0
      ensures LineBase(a, lineSize) <= a < LineBase(a, lineSize) + lineSize
    {
      BaseCovers(a, lineSize);
      assert LineBase(a, lineSize) in Bases(addresses, lineSize);
    }
    if Covers(lines, addresses, lineSize) {
      forall b | b in Elements(c)
        ensures b in lines
      {
        var a :| a in addresses && LineBase(a, lineSize) == b;
        var b' :| b' in lines && b' <= a < b' + lineSize;
        BaseUnique(a, lineSize, b');
      }
      SubsetSize(Elements(c), lines);
      ElementsSize(c);
    }
  }

  // ---------------------------------------------------------------------------------------------
  // Loads, stores and atomics on flat memory

  /** What flat memory holds at an address, if it is in range. */
  function At(d: Data, address: nat): int {
    var r := LoadWord(d, address);
    if r.Ok? then r.value else 0
  }

  predicate InRange(d: Data, address: nat) { LoadWord(d, address).Ok? }

  predicate SameRange(d: Data, d': Data) { |d.shared| == |d'.shared| && |d.global| == |d'.global| }

  /** The caches never change the data, and a load returns what flat memory holds. */
  lemma LoadIsFlat(m: MemVal, addresses: seq<nat>)
    requires WarpLoad(m, addresses).Ok?
    ensures var r := WarpLoad(m, addresses).value;
            && |r.values| == |addresses|
            && forall i :: 0 <= i < |addresses| ==>
                 InRange(m.data, addresses[i]) && r.values[i] == At(m.data, addresses[i])
  {
    LoadAllFlat(m.data, addresses);
  }

  lemma LoadAllFlat(d: Data, addresses: seq<nat>)
    requires LoadAll(d, addresses).Ok?
    ensures forall i :: 0 <= i < |addresses| ==>
              InRange(d, addresses[i]) && LoadAll(d, addresses).value[i] == At(d, addresses[i])
  {
    if addresses != [] {
      LoadAllFlat(d, addresses[1..]);
    }
  }

  lemma StoreOne(d: Data, address: nat, value: int, a: nat)
    requires StoreWord(d, address, value).Ok?
    ensures var d' := StoreWord(d, address, value).value;
            && SameRange(d, d') && InRange(d, address)
            && At(d', a) == (if a == address then value else At(d, a))
            && (InRange(d', a) <==> InRange(d, a))
  {
  }

  /** The last lane to write an address wins; without such a lane the address keeps its value. */
  ghost predicate LastWriter(writes: seq<Write>, a: nat, j: nat) {
    j < |writes| && writes[j].address == a && forall i :: j < i < |writes| ==> writes[i].address != a
  }

  lemma {:induction false} StoreLastWins(d: Data, writes: seq<Write>, a: nat)
    requires StoreAll(d, writes).Ok?
    ensures var d' := StoreAll(d, writes).value;
            && SameRange(d, d')
            && (forall j: nat :: LastWriter(writes, a, j) ==> At(d', a) == writes[j].value)
            && ((forall i :: 0 <= i < |writes| ==> writes[i].address != a) ==> At(d', a) == At(d, a))
    decreases |writes|
  {
    if writes != [] {
      var d1 := StoreWord(d, writes[0].address, writes[0].value).value;
      StoreOne(d, writes[0].address, writes[0].value, a);
      var rest := writes[1..];
      StoreLastWins(d1, rest, a);
      var d' := StoreAll(d, writes).value;
      forall j: nat | LastWriter(writes, a, j)
        ensures At(d', a) == writes[j].value
      {
        if j > 0 {
          assert LastWriter(rest, a, j - 1) by {
            assert forall i :: j - 1 < i < |rest| ==> rest[i] == writes[i + 1];
          }
        } else {
          assert forall i :: 0 <= i < |rest| ==> rest[i] == writes[i + 1];
        }
      }
    }
  }

  /** The sum of what the lanes add at one address. */
  function AddedAt(writes: seq<Write>, a: nat): int
    decreases |writes|
  {
    if writes == [] then 0 else (if writes[0].address == a then writes[0].value else 0) + AddedAt(writes[1..], a)
  }

  /** Atomics leave every address at its initial value plus the sum of what its lanes add. */
  lemma {:induction false} AddSums(d: Data, writes: seq<Write>, a: nat)
    requires AddAll(d, writes).Ok?
    ensures var d' := AddAll(d, writes).value;
            SameRange(d, d') && At(d', a) == At(d, a) + AddedAt(writes, a)
    decreases |writes|
  {
    if writes != [] {
      var w := writes[0];
      var d1 := AddWord(d, w.address, w.value).value;
      StoreOne(d, w.address, At(d, w.address) + w.value, a);
      AddSums(d1, writes[1..], a);
    }
  }

  lemma AddedConcat(x: seq<Write>, y: seq<Write>, a: nat)
    ensures AddedAt(x + y, a) == AddedAt(x, a) + AddedAt(y, a)
    decreases |x|
  {
    if x == [] {
      assert x + y == y;
    } else {
      assert (x + y)[1..] == x[1..] + y;
      AddedConcat(x[1..], y, a);
    }
  }

  lemma AddedWithout(y: seq<Write>, i: nat, a: nat)
    requires i < |y|
    ensures AddedAt(y, a) == AddedAt(y[..i] + y[i + 1..], a) + (if y[i].address == a then y[i].value else 0)
  {
    assert y == y[..i] + ([y[i]] + y[i + 1..]);
    AddedConcat(y[..i], [y[i]] + y[i + 1..], a);
    assert ([y[i]] + y[i + 1..])[1..] == y[i + 1..];
    AddedConcat(y[..i], y[i + 1..], a);
  }

  lemma MultisetWithout(y: seq<Write>, i: nat)
    requires i < |y|
    ensures multiset(y[..i] + y[i + 1..]) == multiset(y) - multiset{y[i]}
  {
    assert y == y[..i] + [y[i]] + y[i + 1..];
  }

  lemma {:induction false} AddedPermuted(x: seq<Write>, y: seq<Write>, a: nat)
    requires multiset(x) == multiset(y)
    ensures AddedAt(x, a) == AddedAt(y, a)
    decreases |x|
  {
    hide AddedAt;
    if x == [] {
      assert |multiset(y)| == |y|;
      assert x == y;
    } else {
      var i := SameHead(x, y);
      AddedPermuted(x[1..], y[..i] + y[i + 1..], a);
      assert x[..0] + x[1..] == x[1..];
      AddedWithout(x, 0, a);
      AddedWithout(y, i, a);
    }
  }

  lemma WithoutHead(x: seq<Write>)
    requires x != []
    ensures multiset(x[1..]) == multiset(x) - multiset{x[0]}
  {
    assert x == [x[0]] + x[1..];
  }

  lemma Occurs(x: Write, y: seq<Write>) returns (i: nat)
    requires x in multiset(y)
    ensures i < |y| && y[i] == x
  {
    i :| 0 <= i < |y| && y[i] == x;
  }

  lemma SameHead(x: seq<Write>, y: seq<Write>) returns (i: nat)
    requires x != [] && multiset(x) == multiset(y)
    ensures i < |y| && y[i] == x[0] && multiset(x[1..]) == multiset(y[..i] + y[i + 1..])
  {
    assert x[0] in x;
    i := Occurs(x[0], y);
    WithoutHead(x);
    MultisetWithout(y, i);
  }

  /** Global cells at shared addresses cannot be reached. */
  lemma AddKeepsUnreachable(d: Data, writes: seq<Write>, i: nat)
    requires AddAll(d, writes).Ok? && i < |d.global| && IsShared(i)
    ensures SameRange(d, AddAll(d, writes).value) && AddAll(d, writes).value.global[i] == d.global[i]
    decreases |writes|
  {
    if writes != [] {
      AddKeepsUnreachable(AddWord(d, writes[0].address, writes[0].value).value, writes[1..], i);
    }
  }

  /** Atomics do not depend on the order of the lanes. */
  lemma AtomicsCommute(d: Data, x: seq<Write>, y: seq<Write>)
    requires AddAll(d, x).Ok? && AddAll(d, y).Ok? && multiset(x) == multiset(y)
    ensures AddAll(d, x).value == AddAll(d, y).value
  {
    var dx, dy := AddAll(d, x).value, AddAll(d, y).value;
    AddSums(d, x, 0);
    AddSums(d, y, 0);
    forall i | 0 <= i < |d.shared|
      ensures dx.shared[i] == dy.shared[i]
    {
      AddSums(d, x, SHARED_MEM_BASE + i);
      AddSums(d, y, SHARED_MEM_BASE + i);
      AddedPermuted(x, y, SHARED_MEM_BASE + i);
    }
    forall i | 0 <= i < |d.global|
      ensures dx.global[i] == dy.global[i]
    {
      if IsShared(i) {
        AddKeepsUnreachable(d, x, i);
        AddKeepsUnreachable(d, y, i);
      } else {
        AddSums(d, x, i);
        AddSums(d, y, i);
        AddedPermuted(x, y, i);
      }
    }
  }

  /** Timing an instruction does not touch the data. */
  lemma ServiceKeepsData(m: MemVal, lines: seq<nat>, isWrite: bool, latency: nat, dirty: nat)
    requires ServiceLines(m, lines, isWrite, latency, dirty).Ok?
    ensures ServiceLines(m, lines, isWrite, latency, dirty).value.mem.data == m.data
    decreases |lines|
  {
    hide CacheAccess;
    if lines != [] {
      var t := CacheLatency(m, lines[0], isWrite).value;
      ServiceKeepsData(t.mem, lines[1..], isWrite, Max(latency, t.latency), dirty + t.dirtyEvictions);
    }
  }

  lemma ServiceWarpKeepsData(m: MemVal, addresses: seq<nat>, isWrite: bool)
    ensures ServiceWarp(m, addresses, isWrite).Ok? ==> ServiceWarp(m, addresses, isWrite).value.mem.data == m.data
  {
    hide ServiceLines, BankConflicts, Coalesce, Mixed;
    if ServiceWarp(m, addresses, isWrite).Ok? && addresses != [] && !IsShared(addresses[0]) {
      ServiceKeepsData(m, Coalesce(addresses, m.l1.lineSize), isWrite, 1, 0);
    }
  }
}
