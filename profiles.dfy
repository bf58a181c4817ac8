/**
 * InstructionPatternFrequencyMap: how often each pattern occurs in a program
 * (m) and how many occurrences were recorded in all (n).  The ghost history
 * `added` is the sequence of patterns passed to Add, so the counts are the
 * multiplicities of that history.
 */
module Profiles {
  import opened Patterns

  /** The count recorded for e, zero when e was never added. */
  function CountOf(m: map<InstructionPattern, nat>, e: InstructionPattern): nat
  {
    if e in m then m[e] else 0
  }

  /** m[element]++ of the source (operator[] inserts a zero count first). */
  function Bump(m: map<InstructionPattern, nat>, e: InstructionPattern): (r: map<InstructionPattern, nat>)
    ensures r.Keys == m.Keys + {e}
    ensures CountOf(r, e) == CountOf(m, e) + 1
    ensures forall k :: k != e ==> CountOf(r, k) == CountOf(m, k)
  {
    m[e := CountOf(m, e) + 1]
  }

  /** The counts after adding the patterns of s in order to an empty map. */
  function CountsOf(s: seq<InstructionPattern>): map<InstructionPattern, nat>
  {
    if s == [] then map[] else Bump(CountsOf(s[..|s| - 1]), s[|s| - 1])
  }

  /** The sum of all counts of a map. */
  ghost function SumCounts(m: map<InstructionPattern, nat>): nat
    decreases |m.Keys|
  {
    if m == map[] then 0
    else
      var k :| k in m;
      m[k] + SumCounts(m - {k})
  }

  /** Each count is the multiplicity of its pattern in the history, and only added patterns are keys. */
  lemma {:induction false} CountsAreMultiplicities(s: seq<InstructionPattern>)
    ensures forall e :: CountOf(CountsOf(s), e) == multiset(s)[e]
    ensures forall e :: e in CountsOf(s) <==> e in s
  {
    if s != [] {
      var n := |s| - 1;
      CountsAreMultiplicities(s[..n]);
      assert s == s[..n] + [s[n]];
      assert multiset(s) == multiset(s[..n]) + multiset{s[n]};
    }
  }

  /** The sum does not depend on which key is taken out first. */
  lemma {:induction false} SumCountsRemove(m: map<InstructionPattern, nat>, k: InstructionPattern)
    requires k in m
    ensures SumCounts(m) == m[k] + SumCounts(m - {k})
    decreases |m.Keys|
  {
    var k' :| k' in m && SumCounts(m) == m[k'] + SumCounts(m - {k'});
    if k' != k {
      var rest := m - {k'};
      assert |rest.Keys| < |m.Keys| by {
        assert m.Keys == rest.Keys + {k'};
      }
      SumCountsRemove(rest, k);
      var both := m - {k} - {k'};
      assert rest - {k} == both;
      var other := m - {k};
      assert |other.Keys| < |m.Keys| by {
        assert m.Keys == other.Keys + {k};
      }
      SumCountsRemove(other, k');
      assert other - {k'} == both;
    }
  }

  /** One more occurrence adds one to the total. */
  lemma SumCountsBump(m: map<InstructionPattern, nat>, e: InstructionPattern)
    ensures SumCounts(Bump(m, e)) == SumCounts(m) + 1
  {
    var r := Bump(m, e);
    SumCountsRemove(r, e);
    assert r - {e} == m - {e};
    if e in m {
      SumCountsRemove(m, e);
    } else {
      assert m - {e} == m;
    }
  }

  /** The counts of a history add up to its length. */
  lemma {:induction false} CountsTotal(s: seq<InstructionPattern>)
    ensures SumCounts(CountsOf(s)) == |s|
  {
    if s != [] {
      CountsTotal(s[..|s| - 1]);
      SumCountsBump(CountsOf(s[..|s| - 1]), s[|s| - 1]);
    }
  }

  class FrequencyMap {
    var m: map<InstructionPattern, nat>
    var n: nat
    ghost var added: seq<InstructionPattern>

    ghost predicate Valid()
      reads this
    {
      m == CountsOf(added) && n == |added|
    }

    /** An empty profile. */
    constructor ()
      ensures Valid() && added == [] && m == map[] && n == 0
    {
      m := map[];
      n := 0;
      added := [];
    }

    /** InstructionPatternFrequencyMap::add: one more occurrence of element. */
    method Add(element: InstructionPattern)
      requires Valid()
      modifies this
      ensures Valid()
      ensures added == old(added) + [element]
      ensures m == Bump(old(m), element) && n == old(n) + 1
    {
      m := m[element := CountOf(m, element) + 1];
      n := n + 1;
      added := added + [element];
      assert added[..|added| - 1] == old(added);
    }
  }

  /** In a valid profile the total is the number of occurrences and the sum of the counts. */
  lemma ProfileTotals(f: FrequencyMap)
    requires f.Valid()
    ensures f.n == |f.added| == SumCounts(f.m)
    ensures forall e :: CountOf(f.m, e) == multiset(f.added)[e]
  {
    CountsTotal(f.added);
    CountsAreMultiplicities(f.added);
  }
}
