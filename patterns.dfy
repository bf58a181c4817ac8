/**
 * Instruction patterns: sequences of simplified instructions (an opcode id and
 * argument slot indices), their equality and hashes, and the matcher that
 * tests a pattern against a decoded instruction stream with first-binding-wins
 * unification of the argument slots.
 */
module Patterns {
  import opened BitStrings
  import opened Formats

  datatype SimplifiedInstruction = SimplifiedInstruction(opCode: nat, arguments: seq<nat>)

  datatype InstructionPattern = InstructionPattern(instructions: seq<SimplifiedInstruction>)

  /** operator!= on SimplifiedInstruction: opcode, argument count, then each argument. */
  method InstructionsDiffer(i1: SimplifiedInstruction, i2: SimplifiedInstruction) returns (r: bool)
    ensures r <==> i1 != i2
  {
    if i1.opCode != i2.opCode {
      return true;
    }
    if |i1.arguments| != |i2.arguments| {
      return true;
    }
    for i := 0 to |i1.arguments|
      invariant i1.arguments[..i] == i2.arguments[..i]
    {
      if i1.arguments[i] != i2.arguments[i] {
        return true;
      }
      assert i1.arguments[..i + 1] == i1.arguments[..i] + [i1.arguments[i]];
      assert i2.arguments[..i + 1] == i2.arguments[..i] + [i2.arguments[i]];
    }
    assert i1.arguments == i1.arguments[..|i1.arguments|];
    assert i2.arguments == i2.arguments[..|i2.arguments|];
    return false;
  }

  /** operator== on InstructionPattern: same length and no instruction differs. */
  method PatternsEqual(p1: InstructionPattern, p2: InstructionPattern) returns (r: bool)
    ensures r <==> p1 == p2
  {
    var a, b := p1.instructions, p2.instructions;
    if |a| != |b| {
      return false;
    }
    for i := 0 to |a|
      invariant a[..i] == b[..i]
    {
      var differ := InstructionsDiffer(a[i], b[i]);
      if differ {
        return false;
      }
      assert a[..i + 1] == a[..i] + [a[i]];
      assert b[..i + 1] == b[..i] + [b[i]];
    }
    assert a == a[..|a|] && b == b[..|b|];
    return true;
  }

  /** SimplifiedInstructionHash: the fold over the arguments, seeded with the opcode id. */
  function InstructionHashOf(inst: SimplifiedInstruction): nat
  {
    HashFold(inst.opCode, inst.arguments)
  }

  /** The instruction hashes of a pattern, in order. */
  function InstructionHashes(p: seq<SimplifiedInstruction>): (r: seq<int>)
    ensures |r| == |p|
    ensures forall i :: 0 <= i < |p| ==> r[i] == InstructionHashOf(p[i])
  {
    if p == [] then [] else InstructionHashes(p[..|p| - 1]) + [InstructionHashOf(p[|p| - 1])]
  }

  /** InstructionPatternHash: the fold over the instruction hashes, from 0. */
  function PatternHashOf(p: InstructionPattern): nat
  {
    HashFold(0, InstructionHashes(p.instructions))
  }

  method InstructionHash(inst: SimplifiedInstruction) returns (h: int)
    ensures h == InstructionHashOf(inst)
  {
    var args := inst.arguments;
    h := inst.opCode % SizeModulus;
    for i := 0 to |args|
      invariant h == HashFold(inst.opCode, args[..i])
    {
      assert args[..i + 1][..i] == args[..i];
      h := (HashMultiplier * h + args[i]) % SizeModulus;
    }
    assert args[..|args|] == args;
  }

  method PatternHash(p: InstructionPattern) returns (h: int)
    ensures h == PatternHashOf(p)
  {
    var a := p.instructions;
    h := 0;
    for i := 0 to |a|
      invariant h == HashFold(0, InstructionHashes(a[..i]))
    {
      var ih := InstructionHash(a[i]);
      assert a[..i + 1][..i] == a[..i];
      h := (HashMultiplier * h + ih) % SizeModulus;
    }
    assert a[..|a|] == a;
  }

  // ---------------------------------------------------------------------------
  // InstructionPattern::match

  /** The stream instruction's opcode is registered with the pattern instruction's id. */
  predicate OpCodeAgrees(ids: map<seq<bit>, nat>, op: seq<bit>, id: nat)
  {
    op in ids && ids[op] == id
  }

  /** At least |p| instructions remain from st. */
  predicate InRange(p: InstructionPattern, arr: seq<BinaryInstruction>, st: nat)
  {
    |arr| - st >= |p.instructions|
  }

  predicate OpCodesAgree(ids: map<seq<bit>, nat>, p: InstructionPattern, arr: seq<BinaryInstruction>, st: nat)
    requires InRange(p, arr, st)
  {
    OpCodesAgreeBefore(ids, p, arr, st, |p.instructions|)
  }

  /** The opcodes of the first n pattern instructions agree with the stream. */
  predicate OpCodesAgreeBefore(ids: map<seq<bit>, nat>, p: InstructionPattern, arr: seq<BinaryInstruction>, st: nat, n: nat)
    requires n <= |p.instructions| && st + n <= |arr|
  {
    forall k :: 0 <= k < n ==> OpCodeAgrees(ids, arr[st + k].opCode, p.instructions[k].opCode)
  }

  /** (i, j) is argument j of pattern instruction i, with a stream argument aligned to it. */
  predicate Pos(p: InstructionPattern, arr: seq<BinaryInstruction>, st: nat, i: int, j: int)
  {
    0 <= i < |p.instructions| && st + i < |arr| &&
    0 <= j < |p.instructions[i].arguments| && j < |arr[st + i].arguments|
  }

  function SlotAt(p: InstructionPattern, arr: seq<BinaryInstruction>, st: nat, i: int, j: int): nat
    requires Pos(p, arr, st, i, j)
  {
    p.instructions[i].arguments[j]
  }

  function ValueAt(p: InstructionPattern, arr: seq<BinaryInstruction>, st: nat, i: int, j: int): seq<bit>
    requires Pos(p, arr, st, i, j)
  {
    arr[st + i].arguments[j]
  }

  /** Binding order: instruction by instruction, argument by argument. */
  predicate Before(i1: int, j1: int, i2: int, j2: int)
  {
    i1 < i2 || (i1 == i2 && j1 < j2)
  }

  /**
   * Unification of the positions before (i, j): once a slot holds a non-empty
   * value, every later position with that slot carries the same value (the
   * empty bit string is the "unbound" sentinel, so an empty value binds
   * nothing).
   */
  ghost predicate UnifiesBefore(p: InstructionPattern, arr: seq<BinaryInstruction>, st: nat, i: int, j: int)
  {
    forall i1, j1, i2, j2 ::
      Pos(p, arr, st, i1, j1) && Pos(p, arr, st, i2, j2) && Before(i1, j1, i2, j2) && Before(i2, j2, i, j) &&
      SlotAt(p, arr, st, i1, j1) == SlotAt(p, arr, st, i2, j2) && ValueAt(p, arr, st, i1, j1) != [] ==>
        ValueAt(p, arr, st, i2, j2) == ValueAt(p, arr, st, i1, j1)
  }

  ghost predicate Unifies(p: InstructionPattern, arr: seq<BinaryInstruction>, st: nat)
  {
    UnifiesBefore(p, arr, st, |p.instructions|, 0)
  }

  /** The pattern matches the stream at st. */
  ghost predicate MatchesAt(ids: map<seq<bit>, nat>, p: InstructionPattern, arr: seq<BinaryInstruction>, st: nat)
  {
    InRange(p, arr, st) && OpCodesAgree(ids, p, arr, st) && Unifies(p, arr, st)
  }

  /**
   * match never reads past the end of a stream instruction's arguments.  The
   * argument loop of instruction i runs only when enough instructions remain,
   * the opcodes of instructions 0 .. i agree and no earlier argument clashed;
   * it then reads argument m = |arr[st + i].arguments| (out of range) exactly
   * when the positions before (i, m) unify and the pattern instruction has
   * more than m slots.
   */
  ghost predicate ArgumentsFit(ids: map<seq<bit>, nat>, p: InstructionPattern, arr: seq<BinaryInstruction>, st: nat)
  {
    InRange(p, arr, st) ==>
      forall n {:trigger OpCodesAgreeBefore(ids, p, arr, st, n)} ::
        (0 < n <= |p.instructions| && OpCodesAgreeBefore(ids, p, arr, st, n) &&
         UnifiesBefore(p, arr, st, n - 1, |arr[st + n - 1].arguments|)) ==>
          |p.instructions[n - 1].arguments| <= |arr[st + n - 1].arguments|
  }

  /**
   * Position (i1, j1) bound a slot to a non-empty value, and the later
   * position (i, j2) of the same slot brings a different value: match
   * returns false at (i, j2).
   */
  predicate ClashAt(p: InstructionPattern, arr: seq<BinaryInstruction>, st: nat, i1: int, j1: int, i: int, j2: int)
  {
    Pos(p, arr, st, i1, j1) && Pos(p, arr, st, i, j2) && Before(i1, j1, i, j2) &&
    SlotAt(p, arr, st, i1, j1) == SlotAt(p, arr, st, i, j2) &&
    ValueAt(p, arr, st, i1, j1) != [] && ValueAt(p, arr, st, i, j2) != ValueAt(p, arr, st, i1, j1)
  }

  /**
   * When match reaches the arguments of instruction i and the pattern
   * instruction has more slots than the stream instruction has arguments,
   * ArgumentsFit guarantees a clash within instruction i before the end of
   * the stream arguments.
   */
  lemma ClashBeforeEnd(ids: map<seq<bit>, nat>, p: InstructionPattern, arr: seq<BinaryInstruction>, st: nat, i: nat)
    returns (i1: int, j1: int, j2: int)
    requires ArgumentsFit(ids, p, arr, st) && InRange(p, arr, st) && i < |p.instructions|
    requires OpCodesAgreeBefore(ids, p, arr, st, i + 1) && UnifiesBefore(p, arr, st, i, 0)
    requires |arr[st + i].arguments| < |p.instructions[i].arguments|
    ensures ClashAt(p, arr, st, i1, j1, i, j2)
  {
    var m := |arr[st + i].arguments|;
    assert !UnifiesBefore(p, arr, st, i, m);
    var i2;
    i1, j1, i2, j2 :|
      Pos(p, arr, st, i1, j1) && Pos(p, arr, st, i2, j2) && Before(i1, j1, i2, j2) && Before(i2, j2, i, m) &&
      SlotAt(p, arr, st, i1, j1) == SlotAt(p, arr, st, i2, j2) && ValueAt(p, arr, st, i1, j1) != [] &&
      ValueAt(p, arr, st, i2, j2) != ValueAt(p, arr, st, i1, j1);
  }

  /**
   * The state of the binding vector after the positions before (i, j): each
   * slot of those positions exists, a non-empty value is the slot's binding,
   * and every bound slot has a witness position that bound it.
   */
  ghost predicate Bound(p: InstructionPattern, arr: seq<BinaryInstruction>, st: nat,
                        args: seq<seq<bit>>, wit: map<nat, (int, int)>, i: int, j: int)
  {
    (forall i1, j1 :: Pos(p, arr, st, i1, j1) && Before(i1, j1, i, j) ==>
      SlotAt(p, arr, st, i1, j1) < |args| &&
      (ValueAt(p, arr, st, i1, j1) != [] ==> args[SlotAt(p, arr, st, i1, j1)] == ValueAt(p, arr, st, i1, j1))) &&
    (forall s :: 0 <= s < |args| && args[s] != [] ==> s in wit) &&
    (forall s :: s in wit ==>
      s < |args| && Pos(p, arr, st, wit[s].0, wit[s].1) && Before(wit[s].0, wit[s].1, i, j) &&
      SlotAt(p, arr, st, wit[s].0, wit[s].1) == s && ValueAt(p, arr, st, wit[s].0, wit[s].1) == args[s]) &&
    UnifiesBefore(p, arr, st, i, j)
  }

  /** args.resize(s + 1): new slots are unbound. */
  function Pad(args: seq<seq<bit>>, s: nat): (r: seq<seq<bit>>)
    ensures s < |r| && |args| <= |r|
    ensures forall k :: 0 <= k < |args| ==> r[k] == args[k]
    ensures forall k :: |args| <= k < |r| ==> r[k] == []
  {
    if |args| <= s then args + seq(s + 1 - |args|, _ => []) else args
  }

  lemma PadBound(p: InstructionPattern, arr: seq<BinaryInstruction>, st: nat,
                 args: seq<seq<bit>>, wit: map<nat, (int, int)>, i: int, j: int, s: nat)
    requires Bound(p, arr, st, args, wit, i, j)
    ensures Bound(p, arr, st, Pad(args, s), wit, i, j)
  {
  }

  /** Binding an unbound slot at (i, j). */
  lemma BindFresh(p: InstructionPattern, arr: seq<BinaryInstruction>, st: nat,
                  args: seq<seq<bit>>, wit: map<nat, (int, int)>, i: int, j: int)
    requires Pos(p, arr, st, i, j) && Bound(p, arr, st, args, wit, i, j)
    requires SlotAt(p, arr, st, i, j) < |args| && args[SlotAt(p, arr, st, i, j)] == []
    ensures var s := SlotAt(p, arr, st, i, j);
            Bound(p, arr, st, args[s := ValueAt(p, arr, st, i, j)], wit[s := (i, j)], i, j + 1)
  {
    var s := SlotAt(p, arr, st, i, j);
    var v := ValueAt(p, arr, st, i, j);
    var args' := args[s := v];
    var wit' := wit[s := (i, j)];
    forall i1, j1, i2, j2 |
      Pos(p, arr, st, i1, j1) && Pos(p, arr, st, i2, j2) && Before(i1, j1, i2, j2) && Before(i2, j2, i, j + 1) &&
      SlotAt(p, arr, st, i1, j1) == SlotAt(p, arr, st, i2, j2) && ValueAt(p, arr, st, i1, j1) != []
      ensures ValueAt(p, arr, st, i2, j2) == ValueAt(p, arr, st, i1, j1)
    {
      if (i2, j2) == (i, j) {
        assert false;
      }
    }
  }

  /** A bound slot met again at (i, j) with the value it holds. */
  lemma BindSame(p: InstructionPattern, arr: seq<BinaryInstruction>, st: nat,
                 args: seq<seq<bit>>, wit: map<nat, (int, int)>, i: int, j: int)
    requires Pos(p, arr, st, i, j) && Bound(p, arr, st, args, wit, i, j)
    requires SlotAt(p, arr, st, i, j) < |args| && args[SlotAt(p, arr, st, i, j)] == ValueAt(p, arr, st, i, j)
    requires args[SlotAt(p, arr, st, i, j)] != []
    ensures Bound(p, arr, st, args, wit, i, j + 1)
  {
    var s := SlotAt(p, arr, st, i, j);
    forall i1, j1, i2, j2 |
      Pos(p, arr, st, i1, j1) && Pos(p, arr, st, i2, j2) && Before(i1, j1, i2, j2) && Before(i2, j2, i, j + 1) &&
      SlotAt(p, arr, st, i1, j1) == SlotAt(p, arr, st, i2, j2) && ValueAt(p, arr, st, i1, j1) != []
      ensures ValueAt(p, arr, st, i2, j2) == ValueAt(p, arr, st, i1, j1)
    {
      if (i2, j2) == (i, j) {
        assert args[s] == ValueAt(p, arr, st, i1, j1);
      }
    }
  }

  /** A bound slot met again with a different value: unification fails. */
  lemma BindClash(p: InstructionPattern, arr: seq<BinaryInstruction>, st: nat,
                  args: seq<seq<bit>>, wit: map<nat, (int, int)>, i: int, j: int)
    requires Pos(p, arr, st, i, j) && Bound(p, arr, st, args, wit, i, j)
    requires SlotAt(p, arr, st, i, j) < |args| && args[SlotAt(p, arr, st, i, j)] != []
    requires args[SlotAt(p, arr, st, i, j)] != ValueAt(p, arr, st, i, j)
    ensures !Unifies(p, arr, st)
  {
    var s := SlotAt(p, arr, st, i, j);
    var w := wit[s];
    assert Before(w.0, w.1, i, j) && Before(i, j, |p.instructions|, 0);
  }

  /** Having bound every argument of instruction i, continue with instruction i + 1. */
  lemma NextInstruction(p: InstructionPattern, arr: seq<BinaryInstruction>, st: nat,
                        args: seq<seq<bit>>, wit: map<nat, (int, int)>, i: int)
    requires 0 <= i < |p.instructions| && st + i < |arr|
    requires Bound(p, arr, st, args, wit, i, |p.instructions[i].arguments|)
    ensures Bound(p, arr, st, args, wit, i + 1, 0)
  {
    forall i1, j1, i2, j2 |
      Pos(p, arr, st, i1, j1) && Pos(p, arr, st, i2, j2) && Before(i1, j1, i2, j2) && Before(i2, j2, i + 1, 0) &&
      SlotAt(p, arr, st, i1, j1) == SlotAt(p, arr, st, i2, j2) && ValueAt(p, arr, st, i1, j1) != []
      ensures ValueAt(p, arr, st, i2, j2) == ValueAt(p, arr, st, i1, j1)
    {
      assert Before(i2, j2, i, |p.instructions[i].arguments|);
    }
    forall s | s in wit
      ensures Before(wit[s].0, wit[s].1, i + 1, 0)
    {
    }
    forall i1, j1 | Pos(p, arr, st, i1, j1) && Before(i1, j1, i + 1, 0)
      ensures Before(i1, j1, i, |p.instructions[i].arguments|)
    {
    }
  }

  /** At a clash position the slot is bound, to a value other than the stream's. */
  lemma ClashTaken(p: InstructionPattern, arr: seq<BinaryInstruction>, st: nat,
                   args: seq<seq<bit>>, wit: map<nat, (int, int)>, i: int, j: int, i1: int, j1: int)
    requires Bound(p, arr, st, args, wit, i, j) && ClashAt(p, arr, st, i1, j1, i, j)
    ensures SlotAt(p, arr, st, i, j) < |args| && args[SlotAt(p, arr, st, i, j)] != []
    ensures args[SlotAt(p, arr, st, i, j)] != ValueAt(p, arr, st, i, j)
  {
    assert args[SlotAt(p, arr, st, i1, j1)] == ValueAt(p, arr, st, i1, j1);
  }

  /**
   * Argument j of pattern instruction i: resize the binding vector, then bind
   * an unbound slot or compare a bound one.  At a clash position it fails.
   */
  method BindOne(p: InstructionPattern, arr: seq<BinaryInstruction>, st: nat, i: nat, j: nat,
                 args0: seq<seq<bit>>, ghost wit0: map<nat, (int, int)>, ghost i1: int, ghost j1: int)
    returns (ok: bool, args: seq<seq<bit>>, ghost wit: map<nat, (int, int)>)
    requires Pos(p, arr, st, i, j) && Bound(p, arr, st, args0, wit0, i, j)
    ensures ok ==> Bound(p, arr, st, args, wit, i, j + 1)
    ensures !ok ==> !Unifies(p, arr, st)
    ensures ClashAt(p, arr, st, i1, j1, i, j) ==> !ok
  {
    var s := p.instructions[i].arguments[j];
    PadBound(p, arr, st, args0, wit0, i, j, s);
    args, wit := Pad(args0, s), wit0;
    var v := arr[st + i].arguments[j];
    if ClashAt(p, arr, st, i1, j1, i, j) {
      ClashTaken(p, arr, st, args, wit, i, j, i1, j1);
    }
    if args[s] == [] {
      BindFresh(p, arr, st, args, wit, i, j);
      ok, args, wit := true, args[s := v], wit[s := (i, j)];
    } else if args[s] != v {
      BindClash(p, arr, st, args, wit, i, j);
      ok := false;
    } else {
      BindSame(p, arr, st, args, wit, i, j);
      ok := true;
    }
  }

  /**
   * The inner loop of InstructionPattern::match over the arguments of pattern
   * instruction i: bind each unbound slot, compare each bound one.
   */
  method BindArguments(p: InstructionPattern, arr: seq<BinaryInstruction>, st: nat, i: nat,
                       args0: seq<seq<bit>>, ghost wit0: map<nat, (int, int)>, ghost clash: (int, int, int))
    returns (ok: bool, args: seq<seq<bit>>, ghost wit: map<nat, (int, int)>)
    requires i < |p.instructions| && st + i < |arr|
    requires |p.instructions[i].arguments| <= |arr[st + i].arguments| ||
             ClashAt(p, arr, st, clash.0, clash.1, i, clash.2)
    requires Bound(p, arr, st, args0, wit0, i, 0)
    ensures ok ==> Bound(p, arr, st, args, wit, i + 1, 0)
    ensures !ok ==> !Unifies(p, arr, st)
  {
    var slots := p.instructions[i].arguments;
    args, wit := args0, wit0;
    var j := 0;
    while j < |slots|
      invariant 0 <= j <= |slots|
      invariant Bound(p, arr, st, args, wit, i, j)
      invariant |arr[st + i].arguments| < |slots| ==> j <= clash.2
    {
      ok, args, wit := BindOne(p, arr, st, i, j, args, wit, clash.0, clash.1);
      if !ok {
        return;
      }
      j := j + 1;
    }
    NextInstruction(p, arr, st, args, wit, i);
    ok := true;
  }

  /**
   * The arguments of instruction i, once its opcode and the earlier ones
   * agree: where the stream instruction has too few arguments, ArgumentsFit
   * supplies the clash at which the loop stops before reading past them.
   */
  method BindInstruction(ids: map<seq<bit>, nat>, p: InstructionPattern, arr: seq<BinaryInstruction>, st: nat, i: nat,
                         args0: seq<seq<bit>>, ghost wit0: map<nat, (int, int)>)
    returns (ok: bool, args: seq<seq<bit>>, ghost wit: map<nat, (int, int)>)
    requires ArgumentsFit(ids, p, arr, st) && InRange(p, arr, st) && i < |p.instructions|
    requires OpCodesAgreeBefore(ids, p, arr, st, i + 1) && Bound(p, arr, st, args0, wit0, i, 0)
    ensures ok ==> Bound(p, arr, st, args, wit, i + 1, 0)
    ensures !ok ==> !Unifies(p, arr, st)
  {
    ghost var clash := (0, 0, 0);
    if |arr[st + i].arguments| < |p.instructions[i].arguments| {
      var i1, j1, j2 := ClashBeforeEnd(ids, p, arr, st, i);
      clash := (i1, j1, j2);
    }
    ok, args, wit := BindArguments(p, arr, st, i, args0, wit0, clash);
  }

  /** InstructionPattern::match: read-only use of the opcode table. */
  method MatchAt(ids: map<seq<bit>, nat>, p: InstructionPattern, arr: seq<BinaryInstruction>, st: nat)
    returns (r: bool)
    requires ArgumentsFit(ids, p, arr, st)
    ensures r == MatchesAt(ids, p, arr, st)
  {
    var pi := p.instructions;
    if |arr| - st < |pi| {
      return false;
    }
    var args: seq<seq<bit>> := [];
    ghost var wit: map<nat, (int, int)> := map[];
    var i := 0;
    while i < |pi|
      invariant 0 <= i <= |pi|
      invariant OpCodesAgreeBefore(ids, p, arr, st, i)
      invariant Bound(p, arr, st, args, wit, i, 0)
    {
      var op := arr[st + i].opCode;
      if op !in ids || ids[op] != pi[i].opCode {
        assert !OpCodeAgrees(ids, arr[st + i].opCode, pi[i].opCode);
        return false;
      }
      assert OpCodesAgreeBefore(ids, p, arr, st, i + 1);
      var ok;
      ok, args, wit := BindInstruction(ids, p, arr, st, i, args, wit);
      if !ok {
        return false;
      }
      i := i + 1;
    }
    return true;
  }

  /**
   * A pattern instruction match never reaches needs no fit: with opcode [0]
   * registered as 0, the pattern {1, []} {0, [0]} fails on the first opcode,
   * so the second instruction's slot is never compared with the missing
   * argument of the second stream instruction.
   */
  lemma UnreachedArgumentsFit()
    ensures ArgumentsFit(map[[0] := 0],
                         InstructionPattern([SimplifiedInstruction(1, []), SimplifiedInstruction(0, [0])]),
                         [BinaryInstruction([0], []), BinaryInstruction([0], [])], 0)
  {
    var ids: map<seq<bit>, nat> := map[[0] := 0];
    var p := InstructionPattern([SimplifiedInstruction(1, []), SimplifiedInstruction(0, [0])]);
    var arr := [BinaryInstruction([0], []), BinaryInstruction([0], [])];
    assert !OpCodeAgrees(ids, arr[0].opCode, p.instructions[0].opCode);
  }
}
