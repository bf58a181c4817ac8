/**
 * mapDictionaryPatterns: the greedy tokenizer.  At each stop it records the
 * first dictionary pattern that matches there and jumps past it, or steps
 * over one instruction when none matches.
 */
module Tokenizer {
  import opened BitStrings
  import opened Formats
  import opened Patterns
  import opened Profiles

  /** Consecutive blank lines give an empty pattern, which matches everywhere and never advances. */
  predicate NonEmptyPatterns(dict: seq<InstructionPattern>)
  {
    forall j :: 0 <= j < |dict| ==> |dict[j].instructions| > 0
  }

  /** The first pattern, from index j on, that matches at i, or -1. */
  ghost function FirstPatternFrom(ids: map<seq<bit>, nat>, dict: seq<InstructionPattern>,
                                  code: seq<BinaryInstruction>, i: nat, j: nat): (k: int)
    requires j <= |dict|
    ensures k == -1 || j <= k < |dict|
    decreases |dict| - j
  {
    if j == |dict| then -1
    else if MatchesAt(ids, dict[j], code, i) then j
    else FirstPatternFrom(ids, dict, code, i, j + 1)
  }

  /** The pattern found, if any, matches at i. */
  lemma {:induction false} FirstPatternMatches(ids: map<seq<bit>, nat>, dict: seq<InstructionPattern>,
                                               code: seq<BinaryInstruction>, i: nat, j: nat)
    requires j <= |dict|
    ensures var k := FirstPatternFrom(ids, dict, code, i, j);
            k >= 0 ==> MatchesAt(ids, dict[k], code, i)
    decreases |dict| - j
  {
    if j < |dict| && !MatchesAt(ids, dict[j], code, i) {
      FirstPatternMatches(ids, dict, code, i, j + 1);
    }
  }

  /** No pattern between j and the one found (or the end) matches at i. */
  lemma {:induction false} FirstPatternEarlier(ids: map<seq<bit>, nat>, dict: seq<InstructionPattern>,
                                               code: seq<BinaryInstruction>, i: nat, j: nat, j': int)
    requires j <= j' < |dict|
    ensures var k := FirstPatternFrom(ids, dict, code, i, j);
            k < 0 || j' < k ==> !MatchesAt(ids, dict[j'], code, i)
    decreases |dict| - j
  {
    if j < j' && !MatchesAt(ids, dict[j], code, i) {
      FirstPatternEarlier(ids, dict, code, i, j + 1, j');
    }
  }

  /** A stop of the tokenizer: its position and the pattern recorded there (-1 for none). */
  datatype Stop = Stop(at: nat, pattern: int)

  /** How far the tokenizer moves on from a stop. */
  function Advance(dict: seq<InstructionPattern>, s: Stop): nat
  {
    if 0 <= s.pattern < |dict| then |dict[s.pattern].instructions| else 1
  }

  /** The stops from position i to the end of the code. */
  ghost function StopsFrom(ids: map<seq<bit>, nat>, dict: seq<InstructionPattern>,
                           code: seq<BinaryInstruction>, i: nat): seq<Stop>
    requires NonEmptyPatterns(dict)
    decreases |code| - i
  {
    if |code| <= i then []
    else
      var k := FirstPatternFrom(ids, dict, code, i, 0);
      [Stop(i, k)] + StopsFrom(ids, dict, code, i + Advance(dict, Stop(i, k)))
  }

  /**
   * At stop i the patterns are tried in dictionary order up to the first one
   * that matches (all of them when none does); none of those attempts reads
   * past the end of a stream instruction's arguments.
   */
  ghost predicate TriedFit(ids: map<seq<bit>, nat>, dict: seq<InstructionPattern>, code: seq<BinaryInstruction>, i: nat)
  {
    var f := FirstPatternFrom(ids, dict, code, i, 0);
    forall j {:trigger ArgumentsFit(ids, dict[j], code, i)} ::
      0 <= j < |dict| && (f < 0 || j <= f) ==> ArgumentsFit(ids, dict[j], code, i)
  }

  /** No match attempt of the tokenizer, from stop i to the end, reads past the end of an argument vector. */
  ghost predicate FitsFrom(ids: map<seq<bit>, nat>, dict: seq<InstructionPattern>, code: seq<BinaryInstruction>, i: nat)
    requires NonEmptyPatterns(dict)
    decreases |code| - i
  {
    |code| <= i ||
    (TriedFit(ids, dict, code, i) &&
     FitsFrom(ids, dict, code, i + Advance(dict, Stop(i, FirstPatternFrom(ids, dict, code, i, 0)))))
  }

  ghost predicate DictionaryFits(ids: map<seq<bit>, nat>, dict: seq<InstructionPattern>, code: seq<BinaryInstruction>)
    requires NonEmptyPatterns(dict)
  {
    FitsFrom(ids, dict, code, 0)
  }

  /** The patterns recorded at the stops, in order. */
  function Recorded(dict: seq<InstructionPattern>, stops: seq<Stop>): seq<InstructionPattern>
  {
    if stops == [] then []
    else (if 0 <= stops[0].pattern < |dict| then [dict[stops[0].pattern]] else []) + Recorded(dict, stops[1..])
  }

  /** The stops where no pattern matched. */
  function Skipped(dict: seq<InstructionPattern>, stops: seq<Stop>): nat
  {
    if stops == [] then 0
    else (if 0 <= stops[0].pattern < |dict| then 0 else 1) + Skipped(dict, stops[1..])
  }

  lemma RecordedCons(dict: seq<InstructionPattern>, s: Stop, rest: seq<Stop>)
    ensures Recorded(dict, [s] + rest) ==
            (if 0 <= s.pattern < |dict| then [dict[s.pattern]] else []) + Recorded(dict, rest)
  {
    assert ([s] + rest)[1..] == rest;
  }

  /** The instructions covered by a sequence of patterns. */
  function TotalLength(ps: seq<InstructionPattern>): nat
  {
    if ps == [] then 0 else |ps[0].instructions| + TotalLength(ps[1..])
  }

  /** The sum of the advances of the stops. */
  function Covered(dict: seq<InstructionPattern>, stops: seq<Stop>): nat
  {
    if stops == [] then 0 else Advance(dict, stops[0]) + Covered(dict, stops[1..])
  }

  /** The patterns mapDictionaryPatterns records for code. */
  ghost function Tokens(ids: map<seq<bit>, nat>, dict: seq<InstructionPattern>,
                        code: seq<BinaryInstruction>): seq<InstructionPattern>
    requires NonEmptyPatterns(dict)
  {
    Recorded(dict, StopsFrom(ids, dict, code, 0))
  }

  /** One stop of the tokenizer: what it records and where it goes on. */
  lemma TokenStep(ids: map<seq<bit>, nat>, dict: seq<InstructionPattern>, code: seq<BinaryInstruction>, i: nat)
    requires NonEmptyPatterns(dict) && i < |code|
    ensures var k := FirstPatternFrom(ids, dict, code, i, 0);
            var next := i + Advance(dict, Stop(i, k));
            i < next <= |code| &&
            Recorded(dict, StopsFrom(ids, dict, code, i)) ==
              (if k >= 0 then [dict[k]] else []) + Recorded(dict, StopsFrom(ids, dict, code, next))
  {
    var k := FirstPatternFrom(ids, dict, code, i, 0);
    var next := i + Advance(dict, Stop(i, k));
    FirstPatternMatches(ids, dict, code, i, 0);
    RecordedCons(dict, Stop(i, k), StopsFrom(ids, dict, code, next));
  }

  /** The tokens recorded so far, followed by those of the stops from i, are all the tokens. */
  ghost predicate Tokenized(ids: map<seq<bit>, nat>, dict: seq<InstructionPattern>, code: seq<BinaryInstruction>,
                            added: seq<InstructionPattern>, i: nat)
    requires NonEmptyPatterns(dict)
  {
    added + Recorded(dict, StopsFrom(ids, dict, code, i)) == Tokens(ids, dict, code)
  }

  /** A stop keeps the tokenizer's loop invariant: it records its pattern, if any, and moves past it. */
  lemma TokensStep(ids: map<seq<bit>, nat>, dict: seq<InstructionPattern>, code: seq<BinaryInstruction>,
                   i: nat, added: seq<InstructionPattern>)
    requires NonEmptyPatterns(dict) && i < |code| && Tokenized(ids, dict, code, added, i)
    ensures var k := FirstPatternFrom(ids, dict, code, i, 0);
            i < i + Advance(dict, Stop(i, k)) <= |code| &&
            (k >= 0 ==> Tokenized(ids, dict, code, added + [dict[k]], i + |dict[k].instructions|)) &&
            (k < 0 ==> Tokenized(ids, dict, code, added, i + 1))
  {
    var k := FirstPatternFrom(ids, dict, code, i, 0);
    var next := i + Advance(dict, Stop(i, k));
    TokenStep(ids, dict, code, i);
    var rest := Recorded(dict, StopsFrom(ids, dict, code, next));
    assert added + Recorded(dict, StopsFrom(ids, dict, code, i)) == Tokens(ids, dict, code);
    if k >= 0 {
      assert next == i + |dict[k].instructions|;
      assert (added + [dict[k]]) + rest == added + ([dict[k]] + rest);
    } else {
      assert next == i + 1;
      assert [] + rest == rest;
    }
  }

  /** The inner loop of mapDictionaryPatterns: the first pattern in dictionary order that matches at i. */
  method FindPattern(ids: map<seq<bit>, nat>, code: seq<BinaryInstruction>, dict: seq<InstructionPattern>, i: nat)
    returns (k: int)
    requires i < |code| && TriedFit(ids, dict, code, i)
    ensures k == FirstPatternFrom(ids, dict, code, i, 0)
  {
    for j := 0 to |dict|
      invariant forall j' :: 0 <= j' < j ==> !MatchesAt(ids, dict[j'], code, i)
    {
      assert ArgumentsFit(ids, dict[j], code, i) by {
        FirstPatternMatches(ids, dict, code, i, 0);
      }
      var m := MatchAt(ids, dict[j], code, i);
      if m {
        k := j;
        assert k == FirstPatternFrom(ids, dict, code, i, 0) by {
          var f := FirstPatternFrom(ids, dict, code, i, 0);
          if f < 0 || j < f {
            FirstPatternEarlier(ids, dict, code, i, 0, j);
          } else if f < j {
            FirstPatternMatches(ids, dict, code, i, 0);
          }
        }
        return;
      }
    }
    FirstPatternMatches(ids, dict, code, i, 0);
    return -1;
  }

  /**
   * One stop of mapDictionaryPatterns: add the first pattern that matches at
   * i, if any, and move past it, or step over one instruction.
   */
  method TokenizeStop(ids: map<seq<bit>, nat>, code: seq<BinaryInstruction>, dict: seq<InstructionPattern>,
                      i: nat, sol: FrequencyMap)
    returns (next: nat)
    requires NonEmptyPatterns(dict) && i < |code| && sol.Valid()
    requires Tokenized(ids, dict, code, sol.added, i) && FitsFrom(ids, dict, code, i)
    modifies sol
    ensures i < next <= |code| && sol.Valid()
    ensures Tokenized(ids, dict, code, sol.added, next) && FitsFrom(ids, dict, code, next)
  {
    ghost var before := sol.added;
    var k := FindPattern(ids, code, dict, i);
    TokensStep(ids, dict, code, i, before);
    ghost var after := i + Advance(dict, Stop(i, k));
    assert FitsFrom(ids, dict, code, after);
    next := i;
    if k >= 0 {
      sol.Add(dict[k]);
      next := next + |dict[k].instructions| - 1;
    }
    next := next + 1;
    assert next == after;
  }

  /** mapDictionaryPatterns, reading the opcode table ids. */
  method MapDictionaryPatterns(ids: map<seq<bit>, nat>, code: seq<BinaryInstruction>, dict: seq<InstructionPattern>)
    returns (sol: FrequencyMap)
    requires NonEmptyPatterns(dict) && DictionaryFits(ids, dict, code)
    ensures fresh(sol) && sol.Valid()
    ensures sol.added == Tokens(ids, dict, code)
  {
    sol := new FrequencyMap();
    var i := 0;
    while i < |code|
      invariant 0 <= i <= |code|
      invariant fresh(sol) && sol.Valid()
      invariant Tokenized(ids, dict, code, sol.added, i)
      invariant FitsFrom(ids, dict, code, i)
      decreases |code| - i
    {
      i := TokenizeStop(ids, code, dict, i, sol);
    }
  }

  /**
   * The stops chain through the code: the first is at i, each is followed by
   * the one its advance leads to, the last ends exactly at the end, and each
   * records the first pattern in dictionary order that matches there.
   */
  lemma {:induction false} StopsChain(ids: map<seq<bit>, nat>, dict: seq<InstructionPattern>,
                                      code: seq<BinaryInstruction>, i: nat)
    requires NonEmptyPatterns(dict) && i <= |code|
    ensures var ss := StopsFrom(ids, dict, code, i);
            (|ss| > 0 ==> ss[0].at == i && ss[|ss| - 1].at + Advance(dict, ss[|ss| - 1]) == |code|) &&
            (|ss| == 0 <==> i == |code|) &&
            (forall q :: 0 <= q < |ss| ==> ss[q].at < |code| && ss[q].pattern == FirstPatternFrom(ids, dict, code, ss[q].at, 0)) &&
            (forall q :: 0 <= q < |ss| - 1 ==> ss[q + 1].at == ss[q].at + Advance(dict, ss[q]))
    decreases |code| - i
  {
    if i < |code| {
      var k := FirstPatternFrom(ids, dict, code, i, 0);
      var next := i + Advance(dict, Stop(i, k));
      FirstPatternMatches(ids, dict, code, i, 0);
      assert next <= |code|;
      StopsChain(ids, dict, code, next);
    }
  }

  /** The advances of the stops from i add up to the rest of the code. */
  lemma {:induction false} StopsCover(ids: map<seq<bit>, nat>, dict: seq<InstructionPattern>,
                                      code: seq<BinaryInstruction>, i: nat)
    requires NonEmptyPatterns(dict) && i <= |code|
    ensures Covered(dict, StopsFrom(ids, dict, code, i)) == |code| - i
    decreases |code| - i
  {
    if i < |code| {
      var k := FirstPatternFrom(ids, dict, code, i, 0);
      var next := i + Advance(dict, Stop(i, k));
      FirstPatternMatches(ids, dict, code, i, 0);
      assert next <= |code|;
      StopsCover(ids, dict, code, next);
      var ss := StopsFrom(ids, dict, code, i);
      assert ss[1..] == StopsFrom(ids, dict, code, next);
    }
  }

  /** Each stop either records a pattern, covering its length, or skips one instruction. */
  lemma {:induction false} CoveredSplits(dict: seq<InstructionPattern>, stops: seq<Stop>)
    ensures Covered(dict, stops) == TotalLength(Recorded(dict, stops)) + Skipped(dict, stops)
    ensures |Recorded(dict, stops)| + Skipped(dict, stops) == |stops|
  {
    if stops != [] {
      CoveredSplits(dict, stops[1..]);
      var rest := Recorded(dict, stops[1..]);
      if 0 <= stops[0].pattern < |dict| {
        assert ([dict[stops[0].pattern]] + rest)[1..] == rest;
      } else {
        assert [] + rest == rest;
      }
    }
  }

  /** Matched pattern lengths plus skipped instructions make up the whole code. */
  lemma Coverage(ids: map<seq<bit>, nat>, dict: seq<InstructionPattern>, code: seq<BinaryInstruction>)
    requires NonEmptyPatterns(dict)
    ensures var ss := StopsFrom(ids, dict, code, 0);
            TotalLength(Tokens(ids, dict, code)) + Skipped(dict, ss) == |code|
  {
    StopsCover(ids, dict, code, 0);
    CoveredSplits(dict, StopsFrom(ids, dict, code, 0));
  }

  /** The profile's total is the number of recorded matches and the sum of its counts. */
  lemma TokenizerTotals(ids: map<seq<bit>, nat>, dict: seq<InstructionPattern>, code: seq<BinaryInstruction>,
                        sol: FrequencyMap)
    requires NonEmptyPatterns(dict) && sol.Valid() && sol.added == Tokens(ids, dict, code)
    ensures var ss := StopsFrom(ids, dict, code, 0);
            sol.n == |ss| - Skipped(dict, ss) == SumCounts(sol.m)
  {
    ProfileTotals(sol);
    CoveredSplits(dict, StopsFrom(ids, dict, code, 0));
  }

  /**
   * A pattern the tokenizer never tries needs no fit: with the dictionary
   * {0, []} then {0, [0]} over one instruction of opcode [0] and no
   * arguments, the first pattern matches at the only stop, so the second,
   * whose slot has no argument to read, is never tried.
   */
  lemma UntriedPatternFits()
    ensures var dict := [InstructionPattern([SimplifiedInstruction(0, [])]),
                         InstructionPattern([SimplifiedInstruction(0, [0])])];
            NonEmptyPatterns(dict) && DictionaryFits(map[[0] := 0], dict, [BinaryInstruction([0], [])])
  {
    var ids: map<seq<bit>, nat> := map[[0] := 0];
    var dict := [InstructionPattern([SimplifiedInstruction(0, [])]),
                 InstructionPattern([SimplifiedInstruction(0, [0])])];
    var code := [BinaryInstruction([0], [])];
    assert MatchesAt(ids, dict[0], code, 0);
    assert FirstPatternFrom(ids, dict, code, 0, 0) == 0;
    assert ArgumentsFit(ids, dict[0], code, 0);
    assert FitsFrom(ids, dict, code, 1);
  }
}
