/** The two data memories and the coalescer. */
module Memories {
  import opened Common
  import opened Sequences
  import opened MemoryModel
  import opened WarpMemory
  import Banks

  class GlobalMemory {
    const data: array<int>

    constructor (size: nat)
      ensures fresh(data) && data[..] == seq(size, _ => 0)
    {
      data := new int[size](_ => 0);
    }

    method Load(address: nat) returns (r: Result<int>)
      ensures r == if address < data.Length then Ok(data[address]) else Throw(OutOfRange)
    {
      if address >= data.Length {
        return Throw(OutOfRange);
      }
      return Ok(data[address]);
    }

    method Store(address: nat, value: int) returns (r: Result<()>)
      modifies data
      ensures r == if address < data.Length then Ok(()) else Throw(OutOfRange)
      ensures data[..] == if address < data.Length then old(data[..])[address := value] else old(data[..])
    {
      if address >= data.Length {
        return Throw(OutOfRange);
      }
      data[address] := value;
      return Ok(());
    }
  }

  class SharedMemory {
    const data: array<int>
    const numBanks: nat

    constructor (size: nat, numBanks: nat)
      ensures fresh(data) && data[..] == seq(size, _ => 0) && this.numBanks == numBanks
    {
      data := new int[size](_ => 0);
      this.numBanks := numBanks;
    }

    method Load(address: nat) returns (r: Result<int>)
      ensures r == if address < data.Length then Ok(data[address]) else Throw(OutOfRange)
    {
      if address >= data.Length {
        return Throw(OutOfRange);
      }
      return Ok(data[address]);
    }

    method Store(address: nat, value: int) returns (r: Result<()>)
      modifies data
      ensures r == if address < data.Length then Ok(()) else Throw(OutOfRange)
      ensures data[..] == if address < data.Length then old(data[..])[address := value] else old(data[..])
    {
      if address >= data.Length {
        return Throw(OutOfRange);
      }
      data[address] := value;
      return Ok(());
    }

    /** The serialisation penalty, from a map of each bank's distinct words. */
    method ComputeBankConflicts(addresses: seq<nat>) returns (conflicts: nat)
      ensures conflicts == BankConflicts(addresses, numBanks)
    {
      if addresses == [] || numBanks == 0 {
        return 0;
      }
      var bankWords: map<nat, set<nat>> := map[];
      for i := 0 to |addresses|
        invariant Tabulates(bankWords, addresses[..i], numBanks)
      {
        var word := addresses[i] / 4;
        var bank := word % numBanks;
        TabulateOne(bankWords, addresses, i, numBanks);
        bankWords := bankWords[bank := (if bank in bankWords then bankWords[bank] else {}) + {word}];
      }
      assert addresses[..|addresses|] == addresses;

      var maxUnique: nat := 0;
      var banks := bankWords.Keys;
      while banks != {}
        invariant banks <= bankWords.Keys
        invariant forall b :: b in bankWords.Keys - banks ==> |bankWords[b]| <= maxUnique
        invariant maxUnique == 0 || exists b :: b in bankWords && |bankWords[b]| == maxUnique
        decreases |banks|
      {
        var bank :| bank in banks;
        maxUnique := Max(maxUnique, |bankWords[bank]|);
        banks := banks - {bank};
      }
      MaxOfTable(bankWords, addresses, numBanks, maxUnique);
      return if maxUnique > 0 then maxUnique - 1 else 0;
    }
  }

  /** The table holds exactly the non-empty banks, each with its distinct words. */
  ghost predicate Tabulates(table: map<nat, set<nat>>, addresses: seq<nat>, banks: nat) {
    && banks > 0
    && (forall b :: b in table ==> b < banks && table[b] == BankWords(addresses, banks, b))
    && (forall b: nat :: b !in table ==> BankWords(addresses, banks, b) == {})
  }

  lemma BankWordsStep(addresses: seq<nat>, i: nat, banks: nat, b: nat)
    requires banks > 0 && i < |addresses|
    ensures BankWords(addresses[..i + 1], banks, b) ==
            BankWords(addresses[..i], banks, b) +
            (if WordOf(addresses[i]) % banks == b then {WordOf(addresses[i])} else {})
  {
    assert addresses[..i + 1] == addresses[..i] + [addresses[i]];
  }

  lemma TabulateOne(table: map<nat, set<nat>>, addresses: seq<nat>, i: nat, banks: nat)
    requires i < |addresses| && Tabulates(table, addresses[..i], banks)
    ensures var word := WordOf(addresses[i]);
            var bank := word % banks;
            Tabulates(table[bank := (if bank in table then table[bank] else {}) + {word}], addresses[..i + 1], banks)
  {
    hide BankWords;
    forall b: nat {
      BankWordsStep(addresses, i, banks, b);
    }
  }

  lemma EntryBound(table: map<nat, set<nat>>, addresses: seq<nat>, banks: nat, m: nat, b: nat)
    requires Tabulates(table, addresses, banks) && forall c :: c in table ==> |table[c]| <= m
    ensures |BankWords(addresses, banks, b)| <= m
  {
    hide BankWords;
    if b !in table { assert BankWords(addresses, banks, b) == {}; }
  }

  lemma MaxOfTable(table: map<nat, set<nat>>, addresses: seq<nat>, banks: nat, m: nat)
    requires Tabulates(table, addresses, banks)
    requires forall b :: b in table ==> |table[b]| <= m
    requires m == 0 || exists b :: b in table && |table[b]| == m
    ensures MaxLoad(addresses, banks, banks) == m
  {
    hide BankWords, MaxLoad;
    Banks.MaxLoadBounds(addresses, banks, banks);
    if MaxLoad(addresses, banks, banks) > 0 {
      var b: nat :| b < banks && |BankWords(addresses, banks, b)| == MaxLoad(addresses, banks, banks);
      EntryBound(table, addresses, banks, m, b);
    }
  }

  // ---------------------------------------------------------------------------------------------
  // Coalescing

  lemma IncreasingUnique(a: seq<nat>, b: seq<nat>)
    requires Increasing(a) && Increasing(b) && Elements(a) == Elements(b)
    ensures a == b
  {
    NoElements(a);
    NoElements(b);
    if a != [] {
      SameLast(a, b);
      WithoutLast(a);
      WithoutLast(b);
      IncreasingUnique(a[..|a| - 1], b[..|b| - 1]);
      assert a == a[..|a| - 1] + [a[|a| - 1]] && b == b[..|b| - 1] + [b[|b| - 1]];
    }
  }

  lemma NoElements(s: seq<nat>)
    ensures s == [] <==> Elements(s) == {}
  {
    if s != [] { assert s[0] in Elements(s); }
  }

  lemma SameLast(a: seq<nat>, b: seq<nat>)
    requires Increasing(a) && Increasing(b) && a != [] && b != [] && Elements(a) == Elements(b)
    ensures a[|a| - 1] == b[|b| - 1]
  {
    assert a[|a| - 1] in Elements(b) && b[|b| - 1] in Elements(a);
  }

  lemma WithoutLast(a: seq<nat>)
    requires Increasing(a) && a != []
    ensures Increasing(a[..|a| - 1])
    ensures Elements(a[..|a| - 1]) == Elements(a) - {a[|a| - 1]}
  {
    assert a == a[..|a| - 1] + [a[|a| - 1]];
  }

  /** The least element, where iteration over an ordered set starts. */
  method Least(s: set<nat>) returns (m: nat)
    requires s != {}
    ensures m in s && forall x :: x in s ==> m <= x
  {
    m :| m in s;
    var rest := s - {m};
    while rest != {}
      invariant m in s && rest <= s && forall y :: y in s && y !in rest ==> m <= y
      decreases |rest|
    {
      var x :| x in rest;
      if x < m { m := x; }
      rest := rest - {x};
    }
  }

  /** List an ordered set. */
  method Ordered(s: set<nat>) returns (list: seq<nat>)
    ensures Increasing(list) && forall x :: x in list <==> x in s
  {
    list := [];
    var rest := s;
    while rest != {}
      invariant Increasing(list)
      invariant forall x, y :: x in list && y in rest ==> x < y
      invariant forall x :: x in s <==> x in list || x in rest
      decreases |rest|
    {
      var m := Least(rest);
      rest := rest - {m};
      Extend(list, m);
      list := list + [m];
    }
  }

  lemma Extend(list: seq<nat>, m: nat)
    requires Increasing(list) && forall x :: x in list ==> x < m
    ensures Increasing(list + [m])
  {
    forall i, j | 0 <= i < j < |list + [m]|
      ensures (list + [m])[i] < (list + [m])[j]
    {
      assert (list + [m])[i] == list[i] && list[i] in list;
    }
  }

  lemma BasesStep(addresses: seq<nat>, lineSize: nat, i: nat)
    requires lineSize > 0 && i < |addresses|
    ensures Bases(addresses[..i + 1], lineSize) == Bases(addresses[..i], lineSize) + {LineBase(addresses[i], lineSize)}
  {
    assert addresses[..i + 1] == addresses[..i] + [addresses[i]];
  }

  /** `MemoryCoalescer::coalesce`: collect the line bases in an ordered set and list it. */
  method CoalesceAddresses(addresses: seq<nat>, lineSize: nat) returns (lines: seq<nat>)
    ensures lines == Coalesce(addresses, lineSize)
  {
    hide Bases, LineBases, Increasing;
    if lineSize == 0 {
      return addresses;
    }
    var uniqueLines: set<nat> := {};
    assert Bases([], lineSize) == {} by { NoBases(lineSize); }
    for i := 0 to |addresses|
      invariant uniqueLines == Bases(addresses[..i], lineSize)
    {
      BasesStep(addresses, lineSize, i);
      uniqueLines := uniqueLines + {LineBase(addresses[i], lineSize)};
    }
    assert addresses[..|addresses|] == addresses;
    lines := Ordered(uniqueLines);
    CoalesceFacts(addresses, lineSize);
    assert Elements(lines) == Elements(Coalesce(addresses, lineSize));
    IncreasingUnique(lines, Coalesce(addresses, lineSize));
  }

  lemma NoBases(lineSize: nat)
    requires lineSize > 0
    ensures Bases([], lineSize) == {}
  {
  }
}
