/**
 * parsePattern: one block of a pattern dictionary (lines of template-shaped
 * text, one per instruction) turned into an InstructionPattern.  Each line
 * takes the first template it fits; the template's literal characters give
 * the opcode, registered in the opcode table, and the letter starting each
 * field gives the argument slot through a character map shared by the whole
 * block.  The counter for unseen letters starts again at 0 on every line.  A
 * line that fits no template leaves its instruction value-initialised:
 * opcode 0 and no arguments.
 */
module Dictionary {
  import opened BitStrings
  import opened Formats
  import opened OpCodes
  import opened Patterns

  /** The first template, from index j on, that the line fits, or -1. */
  function FirstFitFrom(formats: seq<string>, s: string, j: nat): (k: int)
    requires j <= |formats|
    ensures k == -1 || j <= k < |formats|
    ensures k >= 0 ==> MatchesString(formats[k], s)
    ensures forall i :: j <= i < |formats| && (k < 0 || i < k) ==> !MatchesString(formats[i], s)
    decreases |formats| - j
  {
    if j == |formats| then -1
    else if MatchesString(formats[j], s) then j
    else FirstFitFrom(formats, s, j + 1)
  }

  function FirstFit(formats: seq<string>, s: string): (k: int)
    ensures k == -1 || 0 <= k < |formats|
    ensures k >= 0 ==> MatchesString(formats[k], s)
    ensures forall i :: 0 <= i < |formats| && (k < 0 || i < k) ==> !MatchesString(formats[i], s)
  {
    FirstFitFrom(formats, s, 0)
  }

  /** The template a fitting line is read with. */
  function TemplateOf(formats: seq<string>, s: string): (t: string)
    requires FirstFit(formats, s) >= 0
    ensures |t| == |s|
  {
    formats[FirstFit(formats, s)]
  }

  // ---------------------------------------------------------------------------
  // One line

  /** The block's character map, the line's counter for unseen letters, and the slots emitted so far. */
  datatype LineState = LineState(charMap: map<char, nat>, next: nat, slots: seq<nat>)

  /** Position k of line s under template t. */
  function LineStep(t: string, s: string, k: nat, st: LineState): (r: LineState)
    requires k < |t| && |t| == |s|
    ensures |r.slots| == |st.slots| + (if RunStart(t, k) then 1 else 0)
  {
    if !RunStart(t, k) then st
    else if s[k] in st.charMap then st.(slots := st.slots + [st.charMap[s[k]]])
    else LineState(st.charMap[s[k] := st.next], st.next + 1, st.slots + [st.next])
  }

  /** The state after the first k positions of the line, from the block's map cm. */
  function LineAfter(t: string, s: string, cm: map<char, nat>, k: nat): (r: LineState)
    requires k <= |t| && |t| == |s|
    ensures |r.slots| == RunCount(t[..k])
  {
    if k == 0 then LineState(cm, 0, [])
    else
      assert t[..k][..k - 1] == t[..k - 1];
      LineStep(t, s, k - 1, LineAfter(t, s, cm, k - 1))
  }

  /** The letters of the line at the first position of each field, among the first k positions. */
  function FieldLetters(t: string, s: string, k: nat): seq<char>
    requires k <= |t| && |t| == |s|
  {
    if k == 0 then []
    else FieldLetters(t, s, k - 1) + if RunStart(t, k - 1) then [s[k - 1]] else []
  }

  /** The letters of xs outside known, each once, in order of first occurrence. */
  function Fresh(known: set<char>, xs: seq<char>): seq<char>
  {
    if xs == [] then []
    else
      var n := |xs| - 1;
      Fresh(known, xs[..n]) + if xs[n] in known || xs[n] in xs[..n] then [] else [xs[n]]
  }

  lemma {:induction false} FreshElements(known: set<char>, xs: seq<char>)
    ensures forall c :: c in Fresh(known, xs) <==> c !in known && c in xs
  {
    if xs != [] {
      var n := |xs| - 1;
      FreshElements(known, xs[..n]);
      assert xs == xs[..n] + [xs[n]];
    }
  }

  /** There is one field letter per argument of the template. */
  lemma {:induction false} FieldLetterCount(t: string, s: string, k: nat)
    requires k <= |t| && |t| == |s|
    ensures |FieldLetters(t, s, k)| == RunCount(t[..k])
  {
    if k > 0 {
      FieldLetterCount(t, s, k - 1);
      assert t[..k][..k - 1] == t[..k - 1];
    }
  }

  /**
   * What one line does to the block's map and which slots it emits: the map
   * keeps every earlier letter's slot and gains exactly the line's field
   * letters, and each field gets the slot its letter has in the final map.
   */
  lemma {:induction false} LineMapFacts(t: string, s: string, cm: map<char, nat>, k: nat)
    requires k <= |t| && |t| == |s|
    ensures var r := LineAfter(t, s, cm, k);
            var fl := FieldLetters(t, s, k);
            |r.slots| == |fl| &&
            (forall c :: c in cm ==> c in r.charMap && r.charMap[c] == cm[c]) &&
            (forall c :: c in r.charMap <==> c in cm || c in fl) &&
            (forall f :: 0 <= f < |fl| ==> fl[f] in r.charMap && r.slots[f] == r.charMap[fl[f]])
  {
    if k > 0 {
      LineMapFacts(t, s, cm, k - 1);
    }
  }

  lemma FreshAppend(known: set<char>, xs: seq<char>, c: char)
    ensures Fresh(known, xs + [c]) == Fresh(known, xs) + if c in known || c in xs then [] else [c]
  {
    assert (xs + [c])[..|xs|] == xs;
  }

  /** The q-th letter new to the block gets slot q, and the counter is their number. */
  ghost predicate NumbersFresh(known: set<char>, fl: seq<char>, r: LineState)
  {
    var fr := Fresh(known, fl);
    r.next == |fr| && forall q :: 0 <= q < |fr| ==> fr[q] in r.charMap && r.charMap[fr[q]] == q
  }

  lemma FreshStep(known: set<char>, fl0: seq<char>, p: LineState, c: char)
    requires NumbersFresh(known, fl0, p)
    requires forall x :: x in p.charMap <==> x in known || x in fl0
    ensures c in p.charMap ==> NumbersFresh(known, fl0 + [c], p.(slots := p.slots + [p.charMap[c]]))
    ensures c !in p.charMap ==>
              NumbersFresh(known, fl0 + [c], LineState(p.charMap[c := p.next], p.next + 1, p.slots + [p.next]))
  {
    var fr0 := Fresh(known, fl0);
    FreshAppend(known, fl0, c);
    if c !in p.charMap {
      FreshElements(known, fl0);
      forall q | 0 <= q < |fr0|
        ensures fr0[q] != c
      {
        assert fr0[q] in fr0;
      }
    }
  }

  /** The q-th letter new to the block on this line gets slot q, and the counter ends at their number. */
  lemma {:induction false} LineFreshFacts(t: string, s: string, cm: map<char, nat>, k: nat)
    requires k <= |t| && |t| == |s|
    ensures NumbersFresh(cm.Keys, FieldLetters(t, s, k), LineAfter(t, s, cm, k))
  {
    if k > 0 {
      LineFreshFacts(t, s, cm, k - 1);
      var fl0 := FieldLetters(t, s, k - 1);
      if RunStart(t, k - 1) {
        assert FieldLetters(t, s, k) == fl0 + [s[k - 1]];
        LineMapFacts(t, s, cm, k - 1);
        FreshStep(cm.Keys, fl0, LineAfter(t, s, cm, k - 1), s[k - 1]);
      } else {
        assert FieldLetters(t, s, k) == fl0;
      }
    }
  }

  /** The loop over the template's positions inside parsePattern. */
  method ReadLine(t: string, s: string, cm: map<char, nat>)
    returns (charMap: map<char, nat>, argIndex: nat, slots: seq<nat>, opCode: seq<bit>)
    requires |t| == |s|
    ensures LineAfter(t, s, cm, |t|) == LineState(charMap, argIndex, slots)
    ensures opCode == TemplateOpCode(t)
  {
    charMap, argIndex, slots, opCode := cm, 0, [], [];
    for k := 0 to |t|
      invariant LineAfter(t, s, cm, k) == LineState(charMap, argIndex, slots)
      invariant opCode == TemplateOpCode(t[..k])
    {
      assert t[..k + 1][..k] == t[..k];
      if t[k] == '0' {
        opCode := opCode + [0];
      } else if t[k] == '1' {
        opCode := opCode + [1];
      } else if k == 0 || t[k - 1] != t[k] {
        if s[k] !in charMap {
          charMap := charMap[s[k] := argIndex];
          slots := slots + [argIndex];
          argIndex := argIndex + 1;
        } else {
          slots := slots + [charMap[s[k]]];
        }
      }
    }
    assert t[..|t|] == t;
  }

  // ---------------------------------------------------------------------------
  // A block

  datatype BlockState = BlockState(ids: map<seq<bit>, nat>, count: nat, charMap: map<char, nat>,
                                   instructions: seq<SimplifiedInstruction>)

  /** The instruction pushed for every line before the templates are tried: opcode 0, no arguments. */
  const Unfitted := SimplifiedInstruction(0, [])

  /**
   * One line.  A fitting line interns its template's opcode and reads its
   * fields against the block's map; a line that fits no template keeps the
   * value-initialised instruction and changes neither the map nor the table.
   */
  function LineParsed(formats: seq<string>, s: string, b: BlockState): (r: BlockState)
    ensures |r.instructions| == |b.instructions| + 1 && r.instructions[..|b.instructions|] == b.instructions
  {
    if FirstFit(formats, s) < 0 then b.(instructions := b.instructions + [Unfitted])
    else
      var t := TemplateOf(formats, s);
      var l := LineAfter(t, s, b.charMap, |t|);
      var r := Intern(b.ids, b.count, TemplateOpCode(t));
      BlockState(r.ids, r.count, l.charMap, b.instructions + [SimplifiedInstruction(r.id, l.slots)])
  }

  /** The block state after the first i lines, from b0. */
  function BlockAfter(formats: seq<string>, lines: seq<string>, b0: BlockState, i: nat): (r: BlockState)
    requires i <= |lines|
    ensures |r.instructions| == |b0.instructions| + i
  {
    if i == 0 then b0 else LineParsed(formats, lines[i - 1], BlockAfter(formats, lines, b0, i - 1))
  }

  /** parsePattern from the table (ids, count): a fresh map and no instructions at the start. */
  function ParsedPattern(formats: seq<string>, lines: seq<string>, ids: map<seq<bit>, nat>, count: nat): (r: BlockState)
    ensures |r.instructions| == |lines|
  {
    BlockAfter(formats, lines, BlockState(ids, count, map[], []), |lines|)
  }

  /**
   * One line of parsePattern: the value-initialised instruction is pushed,
   * then the templates are tried in order and the first the line fits fills
   * it in.
   */
  method ParseLine(table: OpCodeTable, formats: seq<string>, s: string, charMap: map<char, nat>,
                   instructions: seq<SimplifiedInstruction>)
    returns (charMap': map<char, nat>, instructions': seq<SimplifiedInstruction>)
    requires table.Valid()
    modifies table
    ensures table.Valid()
    ensures LineParsed(formats, s, BlockState(old(table.ids), old(table.count), charMap, instructions)) ==
            BlockState(table.ids, table.count, charMap', instructions')
  {
    charMap', instructions' := charMap, instructions + [Unfitted];
    for j := 0 to |formats|
      invariant forall j' :: 0 <= j' < j ==> !MatchesString(formats[j'], s)
      invariant table.ids == old(table.ids) && table.count == old(table.count)
      invariant charMap' == charMap && instructions' == instructions + [Unfitted]
    {
      var fits := MatchString(formats[j], s);
      if fits {
        assert j == FirstFit(formats, s);
        var cm, _, slots, opCode := ReadLine(formats[j], s, charMap);
        var id := table.Canonicalize(opCode);
        charMap', instructions' := cm, instructions + [SimplifiedInstruction(id, slots)];
        break;
      }
    }
  }

  /** parsePattern, with the opcode table as the object it updates. */
  method ParsePattern(table: OpCodeTable, lines: seq<string>, formats: seq<string>) returns (sol: InstructionPattern)
    requires table.Valid()
    modifies table
    ensures table.Valid()
    ensures var b := ParsedPattern(formats, lines, old(table.ids), old(table.count));
            sol.instructions == b.instructions && table.ids == b.ids && table.count == b.count
  {
    var instructions: seq<SimplifiedInstruction> := [];
    var charMap: map<char, nat> := map[];
    ghost var b0 := BlockState(table.ids, table.count, map[], []);
    for i := 0 to |lines|
      invariant table.Valid()
      invariant BlockAfter(formats, lines, b0, i) == BlockState(table.ids, table.count, charMap, instructions)
    {
      charMap, instructions := ParseLine(table, formats, lines[i], charMap, instructions);
    }
    sol := InstructionPattern(instructions);
  }

  /**
   * Instruction l records line l of the block: for a fitting line, the table
   * id of its template's opcode and the map's slot of each field letter; for
   * a line that fits no template, the value-initialised instruction.
   */
  ghost predicate Records(formats: seq<string>, lines: seq<string>, l: nat, b: BlockState)
    requires l < |lines| && l < |b.instructions|
  {
    var s := lines[l];
    var inst := b.instructions[l];
    if FirstFit(formats, s) < 0 then inst == Unfitted
    else
      var t := TemplateOf(formats, s);
      var fl := FieldLetters(t, s, |t|);
      TemplateOpCode(t) in b.ids && inst.opCode == b.ids[TemplateOpCode(t)] &&
      |inst.arguments| == |fl| == RunCount(t) &&
      forall f :: 0 <= f < |fl| ==> fl[f] in b.charMap && inst.arguments[f] == b.charMap[fl[f]]
  }

  /** A later block state that extends b still records what b recorded. */
  lemma RecordsKept(formats: seq<string>, lines: seq<string>, l: nat, b: BlockState, b': BlockState)
    requires l < |lines| && l < |b.instructions| <= |b'.instructions|
    requires b'.instructions[..|b.instructions|] == b.instructions
    requires forall op :: op in b.ids ==> op in b'.ids && b'.ids[op] == b.ids[op]
    requires forall c :: c in b.charMap ==> c in b'.charMap && b'.charMap[c] == b.charMap[c]
    requires Records(formats, lines, l, b)
    ensures Records(formats, lines, l, b')
  {
    assert b'.instructions[l] == b'.instructions[..|b.instructions|][l];
  }

  /** Parsing line l onto a state with l instructions records it and only extends the state. */
  lemma LineRecords(formats: seq<string>, lines: seq<string>, l: nat, p: BlockState)
    requires l < |lines| && |p.instructions| == l
    requires TableInvariant(p.ids, p.count)
    ensures var b := LineParsed(formats, lines[l], p);
            TableInvariant(b.ids, b.count) &&
            (forall op :: op in p.ids ==> op in b.ids && b.ids[op] == p.ids[op]) &&
            (forall c :: c in p.charMap ==> c in b.charMap && b.charMap[c] == p.charMap[c]) &&
            |b.instructions| == l + 1 && b.instructions[..l] == p.instructions &&
            Records(formats, lines, l, b)
  {
    var s := lines[l];
    var b := LineParsed(formats, s, p);
    if FirstFit(formats, s) >= 0 {
      var t := TemplateOf(formats, s);
      InternGrows(p.ids, p.count, TemplateOpCode(t));
      LineMapFacts(t, s, p.charMap, |t|);
      FieldLetterCount(t, s, |t|);
      assert t[..|t|] == t;
    }
  }

  /**
   * After i lines: the table stays dense and keeps every earlier id, the
   * block's map keeps every earlier slot, there is one instruction per line,
   * its opcode is the table id of its template's literal bits, it has one
   * argument per field, and each argument is the map's slot of the field's
   * letter (so equal letters within a block always share a slot).
   */
  lemma {:induction false} BlockFacts(formats: seq<string>, lines: seq<string>, b0: BlockState, i: nat)
    requires i <= |lines|
    requires TableInvariant(b0.ids, b0.count) && b0.instructions == []
    ensures var b := BlockAfter(formats, lines, b0, i);
            TableInvariant(b.ids, b.count) &&
            (forall op :: op in b0.ids ==> op in b.ids && b.ids[op] == b0.ids[op]) &&
            (forall c :: c in b0.charMap ==> c in b.charMap && b.charMap[c] == b0.charMap[c]) &&
            |b.instructions| == i &&
            forall l :: 0 <= l < i ==> Records(formats, lines, l, b)
  {
    if i > 0 {
      BlockFacts(formats, lines, b0, i - 1);
      var p := BlockAfter(formats, lines, b0, i - 1);
      var b := BlockAfter(formats, lines, b0, i);
      LineRecords(formats, lines, i - 1, p);
      forall l | 0 <= l < i - 1
        ensures Records(formats, lines, l, b)
      {
        RecordsKept(formats, lines, l, p, b);
      }
    }
  }

  /** The facts of BlockFacts for a whole block parsed from a dense table. */
  lemma ParsedPatternFacts(formats: seq<string>, lines: seq<string>, ids: map<seq<bit>, nat>, count: nat)
    requires TableInvariant(ids, count)
    ensures var b := ParsedPattern(formats, lines, ids, count);
            TableInvariant(b.ids, b.count) &&
            (forall op :: op in ids ==> op in b.ids && b.ids[op] == ids[op]) &&
            |b.instructions| == |lines| &&
            forall l :: 0 <= l < |lines| ==> Records(formats, lines, l, b)
  {
    BlockFacts(formats, lines, BlockState(ids, count, map[], []), |lines|);
  }

  /**
   * Slots of letters first seen on a later line restart at 0: in a block of
   * two lines over the template "0a", the letter b of the first line and the
   * letter c of the second both get slot 0, so the pattern demands equal
   * arguments although the letters differ.
   */
  lemma SlotCollision()
    ensures ParsedPattern(["0a"], ["0b", "0c"], map[], 0).instructions ==
            [SimplifiedInstruction(0, [0]), SimplifiedInstruction(0, [0])]
  {
    var formats, lines := ["0a"], ["0b", "0c"];
    var op: seq<bit> := [0];
    assert FirstFit(formats, lines[0]) == 0 && FirstFit(formats, lines[1]) == 0 by {
      assert MatchesString(formats[0], lines[0]) && MatchesString(formats[0], lines[1]);
    }
    assert TemplateOpCode("0a") == op by {
      assert "0a"[..1] == "0";
      assert "0"[..0] == "";
    }
    assert LineAfter("0a", "0b", map[], 2) == LineState(map['b' := 0], 1, [0]) by {
      assert RunStart("0a", 1) && !RunStart("0a", 0);
    }
    assert LineAfter("0a", "0c", map['b' := 0], 2) == LineState(map['b' := 0, 'c' := 0], 1, [0]) by {
      assert RunStart("0a", 1) && !RunStart("0a", 0);
    }
    var b0 := BlockState(map[], 0, map[], []);
    var b1 := BlockState(map[op := 0], 1, map['b' := 0], [SimplifiedInstruction(0, [0])]);
    assert BlockAfter(formats, lines, b0, 1) == b1;
    assert BlockAfter(formats, lines, b0, 2).instructions == b1.instructions + [SimplifiedInstruction(0, [0])];
  }
}
