/** The bank-conflict penalty is optimal: no schedule of the requested words is shorter, and one that short exists. */
module Banks {
  import opened Sequences
  import opened MemoryModel

  /** The words of `words` that live in bank `b`. */
  ghost function InBank(words: set<nat>, banks: nat, b: nat): set<nat>
    requires banks > 0
  {
    set w | w in words && w % banks == b
  }

  ghost function Words(addresses: seq<nat>): set<nat> { set a | a in addresses :: WordOf(a) }

  /** A round serves at most one word of each bank. */
  ghost predicate OnePerBank(round: set<nat>, banks: nat)
    requires banks > 0
  {
    forall u, v :: u in round && v in round && u % banks == v % banks ==> u == v
  }

  /** The rounds serve every one of `words`, each round using a bank at most once. */
  ghost predicate Serves(rounds: seq<set<nat>>, words: set<nat>, banks: nat)
    requires banks > 0
  {
    && (forall r :: 0 <= r < |rounds| ==> OnePerBank(rounds[r], banks))
    && (forall w :: w in words ==> exists r :: 0 <= r < |rounds| && w in rounds[r])
  }

  /** Words of one bank need a round each. */
  lemma {:induction false} OneBankBound(rounds: seq<set<nat>>, words: set<nat>, banks: nat, b: nat)
    requires banks > 0 && Serves(rounds, words, banks)
    requires forall w :: w in words ==> w % banks == b
    ensures |words| <= |rounds|
    decreases |rounds|
  {
    if rounds != [] {
      var init, last := rounds[..|rounds| - 1], rounds[|rounds| - 1];
      var rest := words - last;
      forall w | w in rest
        ensures exists r :: 0 <= r < |init| && w in init[r]
      {
        var r :| 0 <= r < |rounds| && w in rounds[r];
        assert init[r] == rounds[r];
      }
      OneBankBound(init, rest, banks, b);
      AtMostOne(words, last, banks, b);
    } else if w :| w in words {
      assert false;
    }
  }

  lemma AtMostOne(words: set<nat>, round: set<nat>, banks: nat, b: nat)
    requires banks > 0 && OnePerBank(round, banks)
    requires forall w :: w in words ==> w % banks == b
    ensures |words| <= |words - round| + 1
  {
    var both := words * round;
    assert words == (words - round) + both;
    if x :| x in both {
      assert both == {x};
    } else {
      assert both == {};
    }
  }

  lemma HasMax(s: set<nat>) returns (m: nat)
    requires s != {}
    ensures m in s && forall x :: x in s ==> x <= m
  {
    var x :| x in s;
    if s == {x} {
      m := x;
    } else {
      assert s == (s - {x}) + {x};
      var m' := HasMax(s - {x});
      m := if m' < x then x else m';
    }
  }

  /** The largest word of each bank. */
  ghost function Tops(words: set<nat>, banks: nat): set<nat>
    requires banks > 0
  {
    set w | w in words && forall v :: v in words && v % banks == w % banks ==> v <= w
  }

  lemma TopsShrink(words: set<nat>, banks: nat, b: nat)
    requires banks > 0 && InBank(words, banks, b) != {}
    ensures |InBank(words - Tops(words, banks), banks, b)| < |InBank(words, banks, b)|
  {
    var m := HasMax(InBank(words, banks, b));
    assert forall v :: v in words && v % banks == b ==> v in InBank(words, banks, b);
    assert m in Tops(words, banks);
    assert InBank(words - Tops(words, banks), banks, b) <= InBank(words, banks, b) - {m};
    SubsetSize(InBank(words - Tops(words, banks), banks, b), InBank(words, banks, b) - {m});
  }

  lemma BankNotEmpty(words: set<nat>, banks: nat, w: nat)
    requires banks > 0 && w in words
    ensures 0 <= w % banks < banks && |InBank(words, banks, w % banks)| > 0
  {
    assert w in InBank(words, banks, w % banks);
  }

  /** If no bank holds more than `n` of the words, `n` rounds are enough. */
  lemma {:induction false} Schedule(words: set<nat>, banks: nat, n: nat) returns (rounds: seq<set<nat>>)
    requires banks > 0
    requires forall b :: 0 <= b < banks ==> |InBank(words, banks, b)| <= n
    ensures |rounds| == n && Serves(rounds, words, banks)
    decreases n
  {
    if n == 0 {
      rounds := [];
      forall w | w in words
        ensures false
      {
        BankNotEmpty(words, banks, w);
      }
    } else {
      var top := Tops(words, banks);
      var rest := words - top;
      forall b | 0 <= b < banks
        ensures |InBank(rest, banks, b)| <= n - 1
      {
        if InBank(words, banks, b) == {} {
          assert InBank(rest, banks, b) == {};
        } else {
          TopsShrink(words, banks, b);
        }
      }
      var more := Schedule(rest, banks, n - 1);
      rounds := more + [top];
      forall w | w in words
        ensures exists r :: 0 <= r < |rounds| && w in rounds[r]
      {
        if w in top {
          assert w in rounds[|more|];
        } else {
          assert w in rest;
          var r :| 0 <= r < |more| && w in more[r];
          assert rounds[r] == more[r];
        }
      }
    }
  }

  lemma BankWordsOf(addresses: seq<nat>, banks: nat, b: nat)
    requires banks > 0
    ensures BankWords(addresses, banks, b) == InBank(Words(addresses), banks, b)
  {
  }

  lemma MaxLoadBounds(addresses: seq<nat>, banks: nat, n: nat)
    requires banks > 0
    ensures forall b :: 0 <= b < n ==> |BankWords(addresses, banks, b)| <= MaxLoad(addresses, banks, n)
    ensures MaxLoad(addresses, banks, n) > 0 ==>
              exists b :: 0 <= b < n && |BankWords(addresses, banks, b)| == MaxLoad(addresses, banks, n)
  {
  }

  lemma LoadPositive(addresses: seq<nat>, banks: nat)
    requires addresses != [] && banks > 0
    ensures MaxLoad(addresses, banks, banks) > 0
  {
    MaxLoadBounds(addresses, banks, banks);
    var w := WordOf(addresses[0]);
    assert w in BankWords(addresses, banks, w % banks);
  }

  /** No schedule is shorter than the penalty plus one. */
  lemma NoShorterSchedule(addresses: seq<nat>, banks: nat, rounds: seq<set<nat>>)
    requires addresses != [] && banks > 0 && Serves(rounds, Words(addresses), banks)
    ensures BankConflicts(addresses, banks) + 1 <= |rounds|
  {
    LoadPositive(addresses, banks);
    MaxLoadBounds(addresses, banks, banks);
    var b :| 0 <= b < banks && |BankWords(addresses, banks, b)| == MaxLoad(addresses, banks, banks);
    BankWordsOf(addresses, banks, b);
    OneBankBound(rounds, InBank(Words(addresses), banks, b), banks, b);
  }

  /** A schedule of exactly the penalty plus one rounds exists. */
  lemma ShortestSchedule(addresses: seq<nat>, banks: nat) returns (rounds: seq<set<nat>>)
    requires addresses != [] && banks > 0
    ensures |rounds| == BankConflicts(addresses, banks) + 1
    ensures Serves(rounds, Words(addresses), banks)
  {
    LoadPositive(addresses, banks);
    MaxLoadBounds(addresses, banks, banks);
    forall b | 0 <= b < banks
      ensures |InBank(Words(addresses), banks, b)| <= MaxLoad(addresses, banks, banks)
    {
      BankWordsOf(addresses, banks, b);
    }
    rounds := Schedule(Words(addresses), banks, MaxLoad(addresses, banks, banks));
  }

  /** Addresses share a word exactly when they lie between the same two multiples of four. */
  lemma SameWordIff(a: nat, b: nat)
    ensures WordOf(a) == WordOf(b) <==> forall q: nat :: Within(q, a) <==> Within(q, b)
  {
    assert Within(WordOf(a), a) && Within(WordOf(b), b);
  }

  predicate Within(q: nat, address: nat) { 4 * q <= address < 4 * q + 4 }
}
