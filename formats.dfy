/**
 * Instruction format templates and the bit-stream decoder.  A template is a
 * string over '0', '1' and field letters; literal positions form the opcode
 * and each maximal run of one field letter forms one argument.
 */
module Formats {
  import opened BitStrings

  /** A decoded instruction: the opcode bits and the argument bit strings, in order. */
  datatype BinaryInstruction = BinaryInstruction(opCode: seq<bit>, arguments: seq<seq<bit>>)

  predicate IsLiteral(c: char)
  {
    c == '0' || c == '1'
  }

  /** A template character rejects a bit only when it is the other literal. */
  predicate AcceptsBit(c: char, b: bit)
  {
    !(b == 0 && c == '1') && !(b == 1 && c == '0')
  }

  /** The bit string has the template's length and agrees with each literal. */
  predicate Matches(t: string, bits: seq<bit>)
  {
    |bits| == |t| && forall i :: 0 <= i < |t| ==> AcceptsBit(t[i], bits[i])
  }

  /** Two template characters clash only when one is '0' and the other '1'. */
  predicate CharsAgree(c: char, d: char)
  {
    !(d == '0' && c == '1') && !(d == '1' && c == '0')
  }

  /** A textual instruction line fits a template: same length, no literal clash. */
  predicate MatchesString(t: string, s: string)
  {
    |s| == |t| && forall i :: 0 <= i < |t| ==> CharsAgree(t[i], s[i])
  }

  /** BinaryInstructionFormat::match. */
  method Match(t: string, bits: seq<bit>) returns (r: bool)
    ensures r == Matches(t, bits)
  {
    if |bits| != |t| {
      return false;
    }
    for i := 0 to |t|
      invariant forall k :: 0 <= k < i ==> AcceptsBit(t[k], bits[k])
    {
      var b := bits[i];
      if (b == 0 && t[i] == '1') || (b == 1 && t[i] == '0') {
        return false;
      }
    }
    return true;
  }

  /** BinaryInstructionFormat::matchString. */
  method MatchString(t: string, s: string) returns (r: bool)
    ensures r == MatchesString(t, s)
  {
    if |s| != |t| {
      return false;
    }
    for i := 0 to |t|
      invariant forall k :: 0 <= k < i ==> CharsAgree(t[k], s[k])
    {
      if (s[i] == '0' && t[i] == '1') || (s[i] == '1' && t[i] == '0') {
        return false;
      }
    }
    return true;
  }

  /** Position i of t starts an argument: a field letter at 0 or after a different character. */
  predicate RunStart(t: string, i: int)
    requires 0 <= i < |t|
  {
    !IsLiteral(t[i]) && (i == 0 || t[i - 1] != t[i])
  }

  /**
   * The instruction read out of bits with template t, position by position
   * from the left (the argument at the end grows while its letter repeats).
   */
  function Parse(t: string, bits: seq<bit>): (r: BinaryInstruction)
    requires |bits| == |t|
    ensures |t| > 0 && !IsLiteral(t[|t| - 1]) ==> |r.arguments| > 0
    decreases |t|
  {
    if t == [] then BinaryInstruction([], [])
    else
      var n := |t| - 1;
      var p := Parse(t[..n], bits[..n]);
      var b := bits[n];
      if IsLiteral(t[n]) then BinaryInstruction(p.opCode + [b], p.arguments)
      else if RunStart(t, n) then BinaryInstruction(p.opCode, p.arguments + [[b]])
      else
        assert t[..n][n - 1] == t[n - 1];
        var last := |p.arguments| - 1;
        BinaryInstruction(p.opCode, p.arguments[..last] + [p.arguments[last] + [b]])
  }

  /** Reading position i of the template: what Parse of the longer prefix adds to Parse of the shorter. */
  lemma ParseStep(t: string, bits: seq<bit>, i: nat)
    requires |bits| == |t| && i < |t|
    ensures i > 0 && !IsLiteral(t[i - 1]) ==> |Parse(t[..i], bits[..i]).arguments| > 0
    ensures var p, b := Parse(t[..i], bits[..i]), bits[i];
            var args := p.arguments;
            Parse(t[..i + 1], bits[..i + 1]) ==
              if IsLiteral(t[i]) then BinaryInstruction(p.opCode + [b], args)
              else if i == 0 || t[i - 1] != t[i] then BinaryInstruction(p.opCode, args + [[b]])
              else BinaryInstruction(p.opCode, args[..|args| - 1] + [args[|args| - 1] + [b]])
  {
    var t', bits' := t[..i + 1], bits[..i + 1];
    assert t'[..i] == t[..i] && bits'[..i] == bits[..i];
    if i > 0 {
      assert t[..i][i - 1] == t[i - 1];
    }
  }

  /** BinaryInstructionFormat::parseInstruction, called after a successful match. */
  method ParseInstruction(t: string, bits: seq<bit>) returns (r: BinaryInstruction)
    requires |bits| == |t|
    ensures r == Parse(t, bits)
  {
    var opCode: seq<bit> := [];
    var arguments: seq<seq<bit>> := [];
    var argIndex := -1;
    for i := 0 to |t|
      invariant BinaryInstruction(opCode, arguments) == Parse(t[..i], bits[..i])
      invariant argIndex == |arguments| - 1
    {
      ParseStep(t, bits, i);
      var b := bits[i];
      if t[i] == '0' || t[i] == '1' {
        opCode := opCode + [b];
      } else {
        ghost var old_args := arguments;
        if i == 0 || t[i - 1] != t[i] {
          arguments := arguments + [[]];
          argIndex := argIndex + 1;
          assert arguments[argIndex] + [b] == [b];
          assert arguments[argIndex := [b]] == arguments[..argIndex] + [[b]];
          assert arguments[..argIndex] == old_args;
          arguments := arguments[argIndex := arguments[argIndex] + [b]];
        } else {
          assert arguments[argIndex := arguments[argIndex] + [b]] ==
                 arguments[..argIndex] + [arguments[argIndex] + [b]];
          arguments := arguments[argIndex := arguments[argIndex] + [b]];
        }
      }
    }
    assert t[..|t|] == t && bits[..|t|] == bits;
    r := BinaryInstruction(opCode, arguments);
  }

  /** The bits at literal positions of t, in order. */
  function LiteralBits(t: string, bits: seq<bit>): (r: seq<bit>)
    requires |bits| == |t|
  {
    if t == [] then []
    else
      var n := |t| - 1;
      LiteralBits(t[..n], bits[..n]) + if IsLiteral(t[n]) then [bits[n]] else []
  }

  /** The bits at field positions of t, in order. */
  function FieldBits(t: string, bits: seq<bit>): (r: seq<bit>)
    requires |bits| == |t|
  {
    if t == [] then []
    else
      var n := |t| - 1;
      FieldBits(t[..n], bits[..n]) + if IsLiteral(t[n]) then [] else [bits[n]]
  }

  /** The number of positions of t that start an argument. */
  function RunCount(t: string): nat
  {
    if t == [] then 0
    else RunCount(t[..|t| - 1]) + if RunStart(t, |t| - 1) then 1 else 0
  }

  /**
   * [b, e) is a maximal run of one field letter of t: it starts an argument,
   * every position in it carries t[b], and the position after it does not.
   */
  ghost predicate IsRun(t: string, b: nat, e: nat)
  {
    b < e <= |t| && RunStart(t, b) && (forall i :: b <= i < e ==> t[i] == t[b]) && (e == |t| || t[e] != t[b])
  }

  /** The field-letter runs of t as [begin, end) pairs, left to right. */
  function Runs(t: string): (r: seq<(nat, nat)>)
    ensures |r| == RunCount(t)
    ensures |t| > 0 && !IsLiteral(t[|t| - 1]) ==> |r| > 0 && r[|r| - 1].1 == |t|
    decreases |t|
  {
    if t == [] then []
    else
      var n := |t| - 1;
      var p := Runs(t[..n]);
      if IsLiteral(t[n]) then p
      else if RunStart(t, n) then p + [(n, n + 1)]
      else
        assert t[..n][n - 1] == t[n - 1];
        p[..|p| - 1] + [(p[|p| - 1].0, n + 1)]
  }

  /** The first position of the k-th argument of t. */
  function RunBegin(t: string, k: nat): nat
    requires k < RunCount(t)
  {
    Runs(t)[k].0
  }

  /** The position just past the k-th argument of t. */
  function RunEnd(t: string, k: nat): nat
    requires k < RunCount(t)
  {
    Runs(t)[k].1
  }

  /** A run of the prefix t[..n] stays a run of t when the position n does not continue it. */
  lemma RunOfPrefix(t: string, n: nat, b: nat, e: nat)
    requires n < |t| && IsRun(t[..n], b, e)
    requires e < n || t[n] != t[b]
    ensures IsRun(t, b, e)
  {
    assert forall i :: 0 <= i < n ==> t[..n][i] == t[i];
  }

  /** Every pair of r is a run of t, and the pairs are left to right without overlap. */
  ghost predicate RunList(t: string, r: seq<(nat, nat)>)
  {
    (forall k :: 0 <= k < |r| ==> IsRun(t, r[k].0, r[k].1)) &&
    forall k, k' :: 0 <= k < k' < |r| ==> r[k].1 <= r[k'].0
  }

  /** Runs lists the maximal runs of field letters, left to right. */
  lemma {:induction false} RunsAreRuns(t: string)
    ensures RunList(t, Runs(t))
    decreases |t|
  {
    if t != [] {
      var n := |t| - 1;
      RunsAreRuns(t[..n]);
      var p := Runs(t[..n]);
      if IsLiteral(t[n]) {
        RunsLiteral(t, p);
      } else if RunStart(t, n) {
        RunsStart(t, p);
      } else {
        assert t[..n][n - 1] == t[n - 1];
        RunsGrow(t, p);
      }
    }
  }

  lemma RunsLiteral(t: string, p: seq<(nat, nat)>)
    requires |t| > 0 && IsLiteral(t[|t| - 1]) && RunList(t[..|t| - 1], p)
    ensures RunList(t, p)
  {
    var n := |t| - 1;
    forall k | 0 <= k < |p|
      ensures IsRun(t, p[k].0, p[k].1)
    {
      RunOfPrefix(t, n, p[k].0, p[k].1);
    }
  }

  lemma RunsStart(t: string, p: seq<(nat, nat)>)
    requires |t| > 0 && RunStart(t, |t| - 1) && RunList(t[..|t| - 1], p)
    ensures RunList(t, p + [(|t| - 1, |t|)])
  {
    var n := |t| - 1;
    var r := p + [(n, n + 1)];
    forall k | 0 <= k < |p|
      ensures IsRun(t, r[k].0, r[k].1)
    {
      var b, e := p[k].0, p[k].1;
      if e == n {
        assert t[..n][n - 1] == t[b];
      }
      RunOfPrefix(t, n, b, e);
    }
  }

  lemma RunsGrow(t: string, p: seq<(nat, nat)>)
    requires |t| > 1 && !RunStart(t, |t| - 1) && !IsLiteral(t[|t| - 1])
    requires RunList(t[..|t| - 1], p) && |p| > 0 && p[|p| - 1].1 == |t| - 1
    ensures RunList(t, p[..|p| - 1] + [(p[|p| - 1].0, |t|)])
  {
    var n, last := |t| - 1, |p| - 1;
    var b := p[last].0;
    var r := p[..last] + [(b, n + 1)];
    forall k | 0 <= k < last
      ensures IsRun(t, r[k].0, r[k].1)
    {
      assert p[k].1 <= b;
      RunOfPrefix(t, n, p[k].0, p[k].1);
    }
    assert IsRun(t[..n], b, n);
    assert t[..n][n - 1] == t[b];
    assert forall i :: b <= i < n ==> t[..n][i] == t[i];
    assert IsRun(t, r[last].0, r[last].1);
  }

  /** The literal characters of a template read as bits: the opcode of every bit string it matches. */
  function TemplateOpCode(t: string): seq<bit>
  {
    if t == [] then []
    else
      var n := |t| - 1;
      TemplateOpCode(t[..n]) + if t[n] == '0' then [0] else if t[n] == '1' then [1] else []
  }

  /** The arguments laid end to end. */
  function Flatten(args: seq<seq<bit>>): seq<bit>
  {
    if args == [] then [] else Flatten(args[..|args| - 1]) + args[|args| - 1]
  }

  /** The opcode parseInstruction extracts is the literal-position bits. */
  lemma {:induction false} ParseOpCode(t: string, bits: seq<bit>)
    requires |bits| == |t|
    ensures Parse(t, bits).opCode == LiteralBits(t, bits)
  {
    if t != [] {
      var n := |t| - 1;
      ParseOpCode(t[..n], bits[..n]);
    }
  }

  /** Flatten of a sequence with one more argument. */
  lemma FlattenSnoc(args: seq<seq<bit>>, x: seq<bit>)
    ensures Flatten(args + [x]) == Flatten(args) + x
  {
    assert (args + [x])[..|args|] == args;
  }

  /** Growing the last argument by b grows the flattened bits by b. */
  lemma FlattenGrowLast(args: seq<seq<bit>>, b: bit)
    requires |args| > 0
    ensures Flatten(args[..|args| - 1] + [args[|args| - 1] + [b]]) == Flatten(args) + [b]
  {
    var init, x := args[..|args| - 1], args[|args| - 1];
    FlattenSnoc(init, x + [b]);
    assert init + [x] == args;
    FlattenSnoc(init, x);
    assert (Flatten(init) + x) + [b] == Flatten(init) + (x + [b]);
  }

  /** The arguments parseInstruction extracts, laid end to end, are the field-position bits. */
  lemma {:induction false} ParseFlatten(t: string, bits: seq<bit>)
    requires |bits| == |t|
    ensures Flatten(Parse(t, bits).arguments) == FieldBits(t, bits)
  {
    if t != [] {
      var n := |t| - 1;
      var p := Parse(t[..n], bits[..n]);
      ParseFlatten(t[..n], bits[..n]);
      if !IsLiteral(t[n]) {
        if RunStart(t, n) {
          FlattenSnoc(p.arguments, [bits[n]]);
        } else {
          FlattenGrowLast(p.arguments, bits[n]);
        }
      }
    }
  }

  /** There is one argument per run start, and none is empty. */
  lemma {:induction false} ParseArgumentCount(t: string, bits: seq<bit>)
    requires |bits| == |t|
    ensures |Parse(t, bits).arguments| == RunCount(t)
    ensures forall k :: 0 <= k < |Parse(t, bits).arguments| ==> Parse(t, bits).arguments[k] != []
  {
    if t != [] {
      var n := |t| - 1;
      ParseArgumentCount(t[..n], bits[..n]);
    }
  }

  /** Argument k is the slice of bits over the k-th pair of r. */
  ghost predicate Slices(bits: seq<bit>, args: seq<seq<bit>>, r: seq<(nat, nat)>)
  {
    |args| == |r| && forall k :: 0 <= k < |r| ==> r[k].0 <= r[k].1 <= |bits| && args[k] == bits[r[k].0..r[k].1]
  }

  lemma SlicesOfPrefix(bits: seq<bit>, n: nat, args: seq<seq<bit>>, r: seq<(nat, nat)>)
    requires n <= |bits| && Slices(bits[..n], args, r)
    ensures Slices(bits, args, r)
  {
    forall k | 0 <= k < |r|
      ensures args[k] == bits[r[k].0..r[k].1]
    {
      assert bits[..n][r[k].0..r[k].1] == bits[r[k].0..r[k].1];
    }
  }

  lemma SlicesSnoc(bits: seq<bit>, args: seq<seq<bit>>, r: seq<(nat, nat)>, b: nat, e: nat)
    requires Slices(bits, args, r) && b <= e <= |bits|
    ensures Slices(bits, args + [bits[b..e]], r + [(b, e)])
  {
  }

  lemma SlicesInit(bits: seq<bit>, args: seq<seq<bit>>, r: seq<(nat, nat)>)
    requires Slices(bits, args, r) && |r| > 0
    ensures Slices(bits, args[..|r| - 1], r[..|r| - 1])
  {
  }

  /** The arguments parseInstruction extracts are the bits under the runs of the template, in order. */
  lemma {:induction false} ParseRuns(t: string, bits: seq<bit>)
    requires |bits| == |t|
    ensures Slices(bits, Parse(t, bits).arguments, Runs(t))
    decreases |t|
  {
    if t != [] {
      var n := |t| - 1;
      ParseRuns(t[..n], bits[..n]);
      SlicesOfPrefix(bits, n, Parse(t[..n], bits[..n]).arguments, Runs(t[..n]));
      if !IsLiteral(t[n]) {
        ParseRunsField(t, bits);
      }
    }
  }

  /** The step of ParseRuns at a field position. */
  lemma ParseRunsField(t: string, bits: seq<bit>)
    requires |bits| == |t| > 0 && !IsLiteral(t[|t| - 1])
    requires Slices(bits, Parse(t[..|t| - 1], bits[..|t| - 1]).arguments, Runs(t[..|t| - 1]))
    ensures Slices(bits, Parse(t, bits).arguments, Runs(t))
  {
    var n := |t| - 1;
    var p, pr := Parse(t[..n], bits[..n]).arguments, Runs(t[..n]);
    if RunStart(t, n) {
      assert bits[n..n + 1] == [bits[n]];
      SlicesSnoc(bits, p, pr, n, n + 1);
    } else {
      assert t[..n][n - 1] == t[n - 1];
      var last := |p| - 1;
      var b := pr[last].0;
      assert bits[b..n + 1] == p[last] + [bits[n]];
      SlicesInit(bits, p, pr);
      SlicesSnoc(bits, p[..last], pr[..last], b, n + 1);
    }
  }

  /**
   * What parseInstruction extracts: the opcode is the literal-position bits,
   * the arguments laid end to end are the field-position bits, there is one
   * argument per run start and none is empty, and argument k is exactly the
   * bits under the k-th maximal run of one field letter.
   */
  lemma ParseShape(t: string, bits: seq<bit>)
    requires |bits| == |t|
    ensures Parse(t, bits).opCode == LiteralBits(t, bits)
    ensures Flatten(Parse(t, bits).arguments) == FieldBits(t, bits)
    ensures |Parse(t, bits).arguments| == RunCount(t)
    ensures forall k :: 0 <= k < |Parse(t, bits).arguments| ==> Parse(t, bits).arguments[k] != []
    ensures forall k :: 0 <= k < RunCount(t) ==> IsRun(t, RunBegin(t, k), RunEnd(t, k))
    ensures forall k :: 0 <= k < RunCount(t) ==>
              RunBegin(t, k) <= RunEnd(t, k) <= |bits| &&
              Parse(t, bits).arguments[k] == bits[RunBegin(t, k)..RunEnd(t, k)]
  {
    ParseOpCode(t, bits);
    ParseFlatten(t, bits);
    ParseArgumentCount(t, bits);
    RunsAreRuns(t);
    ParseRuns(t, bits);
  }

  lemma {:induction false} LiteralFieldLengths(t: string, bits: seq<bit>)
    requires |bits| == |t|
    ensures |LiteralBits(t, bits)| + |FieldBits(t, bits)| == |t|
  {
    if t != [] {
      LiteralFieldLengths(t[..|t| - 1], bits[..|t| - 1]);
    }
  }

  /** The opcode length plus the argument lengths is the template length. */
  lemma ParseSizes(t: string, bits: seq<bit>)
    requires |bits| == |t|
    ensures |Parse(t, bits).opCode| + |Flatten(Parse(t, bits).arguments)| == |t|
  {
    ParseShape(t, bits);
    LiteralFieldLengths(t, bits);
  }

  /** A matching bit string carries exactly the template's literal bits as its opcode. */
  lemma {:induction false} MatchedOpCode(t: string, bits: seq<bit>)
    requires Matches(t, bits)
    ensures Parse(t, bits).opCode == TemplateOpCode(t)
  {
    ParseShape(t, bits);
    LiteralBitsOfMatch(t, bits);
  }

  lemma {:induction false} LiteralBitsOfMatch(t: string, bits: seq<bit>)
    requires Matches(t, bits)
    ensures LiteralBits(t, bits) == TemplateOpCode(t)
  {
    if t != [] {
      var n := |t| - 1;
      assert Matches(t[..n], bits[..n]) by {
        forall i | 0 <= i < n
          ensures AcceptsBit(t[..n][i], bits[..n][i])
        {
          assert AcceptsBit(t[i], bits[i]);
        }
      }
      LiteralBitsOfMatch(t[..n], bits[..n]);
      assert AcceptsBit(t[n], bits[n]);
    }
  }

  /** The first template, from index j on, that matches the bits, or -1. */
  function FirstMatchFrom(formats: seq<string>, bits: seq<bit>, j: nat): (k: int)
    requires j <= |formats|
    ensures k == -1 || j <= k < |formats|
    ensures k >= 0 ==> Matches(formats[k], bits)
    ensures forall i :: j <= i < |formats| && (k < 0 || i < k) ==> !Matches(formats[i], bits)
    decreases |formats| - j
  {
    if j == |formats| then -1
    else if Matches(formats[j], bits) then j
    else FirstMatchFrom(formats, bits, j + 1)
  }

  /** The first template in table order that matches the bits, or -1. */
  function FirstMatch(formats: seq<string>, bits: seq<bit>): (k: int)
    ensures k == -1 || 0 <= k < |formats|
    ensures k >= 0 ==> Matches(formats[k], bits)
    ensures forall i :: 0 <= i < |formats| && (k < 0 || i < k) ==> !Matches(formats[i], bits)
  {
    FirstMatchFrom(formats, bits, 0)
  }

  /**
   * The inner loop of parseInstructions as written: every template from j on is
   * tried against the accumulator, and each match emits an instruction and
   * empties the accumulator (the loop has no break: later templates are then
   * tried against the empty accumulator).
   */
  function Scan(formats: seq<string>, j: nat, acc: seq<bit>): (r: (seq<bit>, seq<BinaryInstruction>))
    requires j <= |formats|
    ensures |r.1| <= |formats| - j
    ensures r.0 == acc || r.0 == []
    ensures r.1 == [] ==> r.0 == acc
    decreases |formats| - j
  {
    if j == |formats| then (acc, [])
    else if Matches(formats[j], acc) then
      var next := Scan(formats, j + 1, []);
      (next.0, [Parse(formats[j], acc)] + next.1)
    else Scan(formats, j + 1, acc)
  }

  /** The outer loop as written: append each bit to the accumulator, then scan the templates. */
  function Run(formats: seq<string>, acc: seq<bit>, rest: seq<bit>): (r: seq<BinaryInstruction>)
    ensures |r| <= |rest| * |formats|
    decreases |rest|
  {
    if rest == [] then []
    else
      var step := Scan(formats, 0, acc + [rest[0]]);
      step.1 + Run(formats, step.0, rest[1..])
  }

  /** parseInstructions over a bit sequence in place of the file stream. */
  function Decoded(formats: seq<string>, input: seq<bit>): (r: seq<BinaryInstruction>)
    ensures |r| <= |input| * |formats|
  {
    Run(formats, [], input)
  }

  /** parseInstructions: the decode loop with the flat accumulator. */
  method ParseInstructions(formats: seq<string>, input: seq<bit>) returns (sol: seq<BinaryInstruction>)
    ensures sol == Decoded(formats, input)
  {
    sol := [];
    var acc: seq<bit> := [];
    var i := 0;
    while i < |input|
      invariant 0 <= i <= |input|
      invariant sol + Run(formats, acc, input[i..]) == Decoded(formats, input)
    {
      ghost var sol0 := sol;
      ghost var before := acc + [input[i]];
      assert input[i..][1..] == input[i + 1..];
      acc := acc + [input[i]];
      ghost var emitted: seq<BinaryInstruction> := [];
      assert emitted + Scan(formats, 0, acc).1 == Scan(formats, 0, acc).1;
      for j := 0 to |formats|
        invariant sol == sol0 + emitted
        invariant Scan(formats, 0, before) == (Scan(formats, j, acc).0, emitted + Scan(formats, j, acc).1)
      {
        var m := Match(formats[j], acc);
        if m {
          var inst := ParseInstruction(formats[j], acc);
          assert emitted + Scan(formats, j, acc).1 == (emitted + [inst]) + Scan(formats, j + 1, []).1;
          sol := sol + [inst];
          emitted := emitted + [inst];
          acc := [];
        }
      }
      i := i + 1;
    }
  }

  /** Every template of the table has at least one character (parseFormats drops blank lines). */
  predicate NonEmptyTemplates(formats: seq<string>)
  {
    forall j :: 0 <= j < |formats| ==> formats[j] != []
  }

  /** With non-empty templates, the empty accumulator matches nothing. */
  lemma {:induction false} ScanEmpty(formats: seq<string>, j: nat)
    requires NonEmptyTemplates(formats) && j <= |formats|
    ensures Scan(formats, j, []) == ([], [])
    decreases |formats| - j
  {
    if j < |formats| {
      ScanEmpty(formats, j + 1);
    }
  }

  /**
   * With non-empty templates, scanning a non-empty accumulator emits at most
   * one instruction: that of the first matching template, after which the
   * accumulator is empty; with no match it keeps the accumulator.
   */
  lemma {:induction false} ScanFirst(formats: seq<string>, j: nat, acc: seq<bit>)
    requires NonEmptyTemplates(formats) && j <= |formats| && acc != []
    ensures var k := FirstMatchFrom(formats, acc, j);
            Scan(formats, j, acc) == if k >= 0 then ([], [Parse(formats[k], acc)]) else (acc, [])
    decreases |formats| - j
  {
    if j < |formats| {
      if Matches(formats[j], acc) {
        ScanEmpty(formats, j + 1);
        assert [Parse(formats[j], acc)] + [] == [Parse(formats[j], acc)];
      } else {
        ScanFirst(formats, j + 1, acc);
      }
    }
  }

  /**
   * The reference decoding: cut off the shortest prefix of s (trying lengths
   * L, L + 1, ...) that some template matches, emit it with the first such
   * template, and go on with the rest; bits no prefix of which matches are
   * dropped.
   */
  function SegmentsFrom(formats: seq<string>, s: seq<bit>, L: nat): seq<BinaryInstruction>
    requires L >= 1
    decreases |s|, |s| - L
  {
    if L > |s| then []
    else
      var k := FirstMatch(formats, s[..L]);
      if k >= 0 then [Parse(formats[k], s[..L])] + SegmentsFrom(formats, s[L..], 1)
      else SegmentsFrom(formats, s, L + 1)
  }

  function Segments(formats: seq<string>, s: seq<bit>): seq<BinaryInstruction>
  {
    SegmentsFrom(formats, s, 1)
  }

  /** A word ends at the accumulator's next bit: the loop emits it and restarts with an empty accumulator. */
  lemma RunAfterWord(formats: seq<string>, acc: seq<bit>, rest: seq<bit>)
    requires NonEmptyTemplates(formats) && rest != [] && FirstMatch(formats, acc + [rest[0]]) >= 0
    ensures var a := acc + [rest[0]];
            Run(formats, acc, rest) == [Parse(formats[FirstMatch(formats, a)], a)] + Run(formats, [], rest[1..])
  {
    ScanFirst(formats, 0, acc + [rest[0]]);
  }

  /** No word ends at the accumulator's next bit: the loop keeps the longer accumulator. */
  lemma RunGrow(formats: seq<string>, acc: seq<bit>, rest: seq<bit>)
    requires NonEmptyTemplates(formats) && rest != [] && FirstMatch(formats, acc + [rest[0]]) < 0
    ensures Run(formats, acc, rest) == Run(formats, acc + [rest[0]], rest[1..])
  {
    ScanFirst(formats, 0, acc + [rest[0]]);
    assert [] + Run(formats, acc + [rest[0]], rest[1..]) == Run(formats, acc + [rest[0]], rest[1..]);
  }

  /** A word ends at the accumulator's next bit: segmentation emits it and restarts after it. */
  lemma SegmentsAfterWord(formats: seq<string>, acc: seq<bit>, rest: seq<bit>)
    requires rest != [] && FirstMatch(formats, acc + [rest[0]]) >= 0
    ensures var a := acc + [rest[0]];
            SegmentsFrom(formats, acc + rest, |acc| + 1) ==
            [Parse(formats[FirstMatch(formats, a)], a)] + SegmentsFrom(formats, rest[1..], 1)
  {
    var s := acc + rest;
    assert s[..|acc| + 1] == acc + [rest[0]];
    assert s[|acc| + 1..] == rest[1..];
  }

  /** No word ends at the accumulator's next bit: segmentation tries the longer prefix. */
  lemma SegmentsGrow(formats: seq<string>, acc: seq<bit>, rest: seq<bit>)
    requires rest != [] && FirstMatch(formats, acc + [rest[0]]) < 0
    ensures SegmentsFrom(formats, acc + rest, |acc| + 1) ==
            SegmentsFrom(formats, (acc + [rest[0]]) + rest[1..], |acc| + 2)
  {
    var s := acc + rest;
    assert s[..|acc| + 1] == acc + [rest[0]];
    assert (acc + [rest[0]]) + rest[1..] == s;
  }

  lemma {:induction false} RunIsSegments(formats: seq<string>, acc: seq<bit>, rest: seq<bit>)
    requires NonEmptyTemplates(formats)
    ensures Run(formats, acc, rest) == SegmentsFrom(formats, acc + rest, |acc| + 1)
    decreases |rest|
  {
    if rest != [] {
      var a, tail := acc + [rest[0]], rest[1..];
      if FirstMatch(formats, a) >= 0 {
        RunAfterWord(formats, acc, rest);
        SegmentsAfterWord(formats, acc, rest);
        RunIsSegments(formats, [], tail);
        assert [] + tail == tail;
      } else {
        RunGrow(formats, acc, rest);
        SegmentsGrow(formats, acc, rest);
        RunIsSegments(formats, a, tail);
      }
    }
  }


  /**
   * With non-empty templates the decode loop as written is the reference
   * decoding: after each bit, the first template (in table order) matching
   * the whole accumulator emits its instruction and the accumulator restarts.
   */
  lemma DecodedIsSegments(formats: seq<string>, input: seq<bit>)
    requires NonEmptyTemplates(formats)
    ensures Decoded(formats, input) == Segments(formats, input)
  {
    RunIsSegments(formats, [], input);
    assert [] + input == input;
  }

  lemma {:induction false} SegmentsBound(formats: seq<string>, s: seq<bit>, L: nat)
    requires 1 <= L
    ensures |SegmentsFrom(formats, s, L)| <= |s|
    decreases |s|, |s| - L
  {
    if L <= |s| {
      if FirstMatch(formats, s[..L]) >= 0 {
        SegmentsBound(formats, s[L..], 1);
      } else {
        SegmentsBound(formats, s, L + 1);
      }
    }
  }

  /** With non-empty templates, decoding emits at most one instruction per input bit. */
  lemma DecodedBound(formats: seq<string>, input: seq<bit>)
    requires NonEmptyTemplates(formats)
    ensures |Decoded(formats, input)| <= |input|
  {
    DecodedIsSegments(formats, input);
    SegmentsBound(formats, input, 1);
  }

  /** w is recognised exactly at its end: some template matches w, none matches a shorter prefix. */
  predicate Recognized(formats: seq<string>, w: seq<bit>)
  {
    w != [] && FirstMatch(formats, w) >= 0 &&
    forall L :: 1 <= L < |w| ==> FirstMatch(formats, w[..L]) < 0
  }

  /** No non-empty prefix of s matches any template: the ragged tail that decodes to nothing. */
  predicate Unrecognized(formats: seq<string>, s: seq<bit>)
  {
    forall L :: 1 <= L <= |s| ==> FirstMatch(formats, s[..L]) < 0
  }

  lemma {:induction false} SegmentsWord(formats: seq<string>, w: seq<bit>, rest: seq<bit>, L: nat)
    requires Recognized(formats, w) && 1 <= L <= |w|
    ensures SegmentsFrom(formats, w + rest, L) ==
            [Parse(formats[FirstMatch(formats, w)], w)] + Segments(formats, rest)
    decreases |w| - L
  {
    var s := w + rest;
    assert s[..L] == w[..L];
    if L < |w| {
      SegmentsWord(formats, w, rest, L + 1);
    } else {
      assert w[..L] == w;
      assert s[L..] == rest;
    }
  }

  lemma {:induction false} SegmentsTail(formats: seq<string>, s: seq<bit>, L: nat)
    requires Unrecognized(formats, s) && 1 <= L
    ensures SegmentsFrom(formats, s, L) == []
    decreases |s| - L + 1
  {
    if L <= |s| {
      SegmentsTail(formats, s, L + 1);
    }
  }

  /** The instructions of recognised words, each parsed with its first matching template. */
  function ParseWords(formats: seq<string>, words: seq<seq<bit>>): seq<BinaryInstruction>
    requires forall i :: 0 <= i < |words| ==> Recognized(formats, words[i])
  {
    if words == [] then []
    else
      var w := words[|words| - 1];
      assert Recognized(formats, w);
      ParseWords(formats, words[..|words| - 1]) + [Parse(formats[FirstMatch(formats, w)], w)]
  }

  /** Splitting off the last recognised word of a list. */
  lemma LastWord(formats: seq<string>, words: seq<seq<bit>>, rest: seq<bit>)
    requires words != [] && forall i :: 0 <= i < |words| ==> Recognized(formats, words[i])
    ensures var init, w := words[..|words| - 1], words[|words| - 1];
            Recognized(formats, w) && (forall i :: 0 <= i < |init| ==> Recognized(formats, init[i])) &&
            ParseWords(formats, words) == ParseWords(formats, init) + [Parse(formats[FirstMatch(formats, w)], w)] &&
            Flatten(words) + rest == Flatten(init) + (w + rest)
  {
    var init, w := words[..|words| - 1], words[|words| - 1];
    forall i | 0 <= i < |init|
      ensures Recognized(formats, init[i])
    {
      assert init[i] == words[i];
    }
    assert Flatten(words) == Flatten(init) + w;
  }

  lemma {:induction false} DecodeWordsAppend(formats: seq<string>, words: seq<seq<bit>>, rest: seq<bit>)
    requires forall i :: 0 <= i < |words| ==> Recognized(formats, words[i])
    ensures Segments(formats, Flatten(words) + rest) == ParseWords(formats, words) + Segments(formats, rest)
    decreases |words|
  {
    if words == [] {
      assert [] + rest == rest;
    } else {
      var init, w := words[..|words| - 1], words[|words| - 1];
      LastWord(formats, words, rest);
      var p := Parse(formats[FirstMatch(formats, w)], w);
      var pre, sr := ParseWords(formats, init), Segments(formats, rest);
      calc {
        Segments(formats, Flatten(words) + rest);
        Segments(formats, Flatten(init) + (w + rest));
        { DecodeWordsAppend(formats, init, w + rest); }
        pre + Segments(formats, w + rest);
        { SegmentsWord(formats, w, rest, 1); }
        pre + ([p] + sr);
        (pre + [p]) + sr;
        ParseWords(formats, words) + sr;
      }
    }
  }

  /**
   * Decoding a concatenation: a stream made of recognised instruction words
   * followed by a ragged tail decodes to exactly the words' instructions, in
   * order, and the tail emits nothing.
   */
  lemma DecodeWords(formats: seq<string>, words: seq<seq<bit>>, tail: seq<bit>)
    requires forall i :: 0 <= i < |words| ==> Recognized(formats, words[i])
    requires Unrecognized(formats, tail)
    ensures Segments(formats, Flatten(words) + tail) == ParseWords(formats, words)
  {
    DecodeWordsAppend(formats, words, tail);
    SegmentsTail(formats, tail, 1);
    assert ParseWords(formats, words) + [] == ParseWords(formats, words);
  }

  /** Bit j of a byte, counting from the least significant. */
  function BitAt(b: bv8, j: nat): bit
    requires j < 8
  {
    ((b >> j) & 1) as int
  }

  /** Bits of a byte, most significant first, as BitInputStream::getBit delivers them. */
  function ByteBitsMsbFirst(b: bv8): (r: seq<bit>)
    ensures |r| == 8 && forall j :: 0 <= j < 8 ==> r[j] == BitAt(b, 7 - j)
  {
    seq(8, j requires 0 <= j < 8 => BitAt(b, 7 - j))
  }

  /** The bit stream of a file's bytes, byte after byte, each most significant bit first. */
  function StreamBits(bytes: seq<bv8>): (r: seq<bit>)
    ensures |r| == 8 * |bytes|
  {
    if bytes == [] then [] else StreamBits(bytes[..|bytes| - 1]) + ByteBitsMsbFirst(bytes[|bytes| - 1])
  }

  /** Bit i of the stream is bit 7 - i % 8 of byte i / 8. */
  lemma {:induction false} StreamBitsAt(bytes: seq<bv8>)
    ensures forall i :: 0 <= i < 8 * |bytes| ==> StreamBits(bytes)[i] == BitAt(bytes[i / 8], 7 - i % 8)
  {
    if bytes != [] {
      var n := |bytes| - 1;
      StreamBitsAt(bytes[..n]);
      var p, r := StreamBits(bytes[..n]), StreamBits(bytes);
      forall i | 0 <= i < 8 * |bytes|
        ensures r[i] == BitAt(bytes[i / 8], 7 - i % 8)
      {
        assert i < 8 * n ==> i / 8 < n;
        assert i >= 8 * n ==> i / 8 == n && i % 8 == i - 8 * n;
        if i < 8 * n {
          assert r[i] == p[i];
          assert bytes[..n][i / 8] == bytes[i / 8];
        } else {
          assert r[i] == ByteBitsMsbFirst(bytes[n])[i - 8 * n];
        }
      }
    }
  }
}
