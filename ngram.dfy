/**
 * The n-gram side: every window of n consecutive decoded instructions becomes
 * an InstructionPattern whose opcodes are the shared table's ids and whose
 * argument slots number the window's distinct argument values in the order
 * they are first seen.  One profile is built per window length.
 */
module NGrams {
  import opened BitStrings
  import opened Formats
  import opened OpCodes
  import opened Patterns
  import opened Profiles

  const MinN := 3
  const MaxN := 12

  // ---------------------------------------------------------------------------
  // Interning a sequence of values

  /** A table after interning values one after the other, with the id each one got. */
  datatype InternedAll = InternedAll(ids: map<seq<bit>, nat>, count: nat, slots: seq<nat>)

  function InternAll(ids: map<seq<bit>, nat>, count: nat, vals: seq<seq<bit>>): (r: InternedAll)
    ensures |r.slots| == |vals|
  {
    if vals == [] then InternedAll(ids, count, [])
    else
      var p := InternAll(ids, count, vals[..|vals| - 1]);
      var r := Intern(p.ids, p.count, vals[|vals| - 1]);
      InternedAll(r.ids, r.count, p.slots + [r.id])
  }

  /** The table ends dense, keeps its earlier ids and gains exactly the values. */
  lemma {:induction false} InternAllGrows(ids: map<seq<bit>, nat>, count: nat, vals: seq<seq<bit>>)
    requires TableInvariant(ids, count)
    ensures var r := InternAll(ids, count, vals);
            TableInvariant(r.ids, r.count) &&
            (forall v :: v in ids ==> v in r.ids && r.ids[v] == ids[v]) &&
            (forall v :: v in r.ids <==> v in ids || v in vals)
  {
    if vals != [] {
      var n := |vals| - 1;
      InternAllGrows(ids, count, vals[..n]);
      var p := InternAll(ids, count, vals[..n]);
      InternGrows(p.ids, p.count, vals[n]);
      assert vals == vals[..n] + [vals[n]];
    }
  }

  /** Every value ends up in the table with the id it was given. */
  lemma {:induction false} InternAllIds(ids: map<seq<bit>, nat>, count: nat, vals: seq<seq<bit>>)
    ensures var r := InternAll(ids, count, vals);
            forall a :: 0 <= a < |vals| ==> vals[a] in r.ids && r.slots[a] == r.ids[vals[a]]
  {
    if vals != [] {
      var n := |vals| - 1;
      InternAllIds(ids, count, vals[..n]);
      var p := InternAll(ids, count, vals[..n]);
      InternKeeps(p.ids, p.count, vals[n]);
      var r := InternAll(ids, count, vals);
      forall a | 0 <= a < |vals|
        ensures vals[a] in r.ids && r.slots[a] == r.ids[vals[a]]
      {
        if a < n {
          assert vals[a] == vals[..n][a];
        }
      }
    }
  }

  /** The distinct values of a sequence. */
  function Elements(vals: seq<seq<bit>>): set<seq<bit>>
  {
    set v | v in vals
  }

  /** From an empty table, the counter is the number of distinct values interned. */
  lemma {:induction false} InternAllCount(vals: seq<seq<bit>>)
    ensures var r := InternAll(map[], 0, vals);
            r.ids.Keys == Elements(vals) && r.count == |Elements(vals)|
  {
    if vals != [] {
      var n := |vals| - 1;
      var pre := vals[..n];
      var e := Elements(pre);
      InternAllCount(pre);
      assert Elements(vals) == e + {vals[n]} by {
        assert vals == pre + [vals[n]];
      }
      var p := InternAll(map[], 0, pre);
      var r := Intern(p.ids, p.count, vals[n]);
      InternKeeps(p.ids, p.count, vals[n]);
      assert InternAll(map[], 0, vals).ids == r.ids && InternAll(map[], 0, vals).count == r.count;
      if vals[n] in e {
        assert e + {vals[n]} == e;
      } else {
        assert r.ids.Keys == e + {vals[n]};
        assert |e + {vals[n]}| == |e| + 1;
      }
    }
  }

  /** Interning a prefix gives the prefix of the ids. */
  lemma {:induction false} InternAllPrefix(ids: map<seq<bit>, nat>, count: nat, vals: seq<seq<bit>>, a: nat)
    requires a <= |vals|
    ensures InternAll(ids, count, vals).slots[..a] == InternAll(ids, count, vals[..a]).slots
    decreases |vals|
  {
    if a < |vals| {
      var n := |vals| - 1;
      InternAllPrefix(ids, count, vals[..n], a);
      assert vals[..n][..a] == vals[..a];
      assert InternAll(ids, count, vals).slots[..a] == InternAll(ids, count, vals[..n]).slots[..a];
    } else {
      assert vals[..a] == vals;
      assert InternAll(ids, count, vals).slots[..a] == InternAll(ids, count, vals).slots;
    }
  }

  /**
   * Renumbering by first occurrence, from an empty table: two positions get the
   * same id exactly when they hold equal values, and a value seen for the
   * first time gets the number of distinct values before it.
   */
  lemma FirstSeenNumbering(vals: seq<seq<bit>>)
    ensures var r := InternAll(map[], 0, vals);
            |r.slots| == |vals| &&
            (forall a, b :: 0 <= a < |vals| && 0 <= b < |vals| ==> (r.slots[a] == r.slots[b] <==> vals[a] == vals[b])) &&
            (forall a :: 0 <= a < |vals| && vals[a] !in vals[..a] ==> r.slots[a] == |Elements(vals[..a])|)
  {
    var r := InternAll(map[], 0, vals);
    assert TableInvariant(map[], 0) by {
      assert IdRange(0) == {};
    }
    InternAllIds(map[], 0, vals);
    InternAllGrows(map[], 0, vals);
    forall a | 0 <= a < |vals| && vals[a] !in vals[..a]
      ensures r.slots[a] == |Elements(vals[..a])|
    {
      InternAllPrefix(map[], 0, vals, a + 1);
      var p := InternAll(map[], 0, vals[..a]);
      assert vals[..a + 1][..a] == vals[..a];
      assert vals[..a + 1][a] == vals[a];
      InternAllCount(vals[..a]);
      assert r.slots[a] == InternAll(map[], 0, vals[..a + 1]).slots[a];
    }
  }

  // ---------------------------------------------------------------------------
  // One window

  /** The shared opcode table, the window's argument map and counter, and the instructions so far. */
  datatype WindowState = WindowState(ids: map<seq<bit>, nat>, count: nat,
                                     argMap: map<seq<bit>, nat>, argCount: nat,
                                     instructions: seq<SimplifiedInstruction>)

  /** One instruction of the window: its opcode goes through the table, its arguments through the window's map. */
  function WindowStep(w: WindowState, inst: BinaryInstruction): (r: WindowState)
  {
    var r := Intern(w.ids, w.count, inst.opCode);
    var a := InternAll(w.argMap, w.argCount, inst.arguments);
    WindowState(r.ids, r.count, a.ids, a.count, w.instructions + [SimplifiedInstruction(r.id, a.slots)])
  }

  function WindowAfter(ids: map<seq<bit>, nat>, count: nat, win: seq<BinaryInstruction>): (w: WindowState)
    ensures |w.instructions| == |win|
  {
    if win == [] then WindowState(ids, count, map[], 0, [])
    else WindowStep(WindowAfter(ids, count, win[..|win| - 1]), win[|win| - 1])
  }

  /** The instructions arr[st .. en), none when the range is empty or leaves arr. */
  function Slice(arr: seq<BinaryInstruction>, st: int, en: int): seq<BinaryInstruction>
  {
    if 0 <= st < en <= |arr| then arr[st..en] else []
  }

  /** The window of the len instructions of arr from st, read in place. */
  function WindowAt(ids: map<seq<bit>, nat>, count: nat, arr: seq<BinaryInstruction>, st: nat, len: nat): (w: WindowState)
    requires st + len <= |arr|
    ensures |w.instructions| == len
  {
    if len == 0 then WindowState(ids, count, map[], 0, [])
    else WindowStep(WindowAt(ids, count, arr, st, len - 1), arr[st + len - 1])
  }

  /** What InstructionPattern(arr, st, en) reads: the range [st, en), nothing when st >= en. */
  function WindowRange(ids: map<seq<bit>, nat>, count: nat, arr: seq<BinaryInstruction>, st: int, en: int): (w: WindowState)
    ensures |w.instructions| == if 0 <= st < en <= |arr| then en - st else 0
  {
    if 0 <= st < en <= |arr| then WindowAt(ids, count, arr, st, en - st) else WindowState(ids, count, map[], 0, [])
  }

  /** Reading one more instruction of a range. */
  lemma WindowRangeStep(ids: map<seq<bit>, nat>, count: nat, arr: seq<BinaryInstruction>, st: int, i: int)
    requires 0 <= st <= i < |arr|
    ensures WindowRange(ids, count, arr, st, i + 1) == WindowStep(WindowRange(ids, count, arr, st, i), arr[i])
  {
    assert WindowAt(ids, count, arr, st, i + 1 - st) == WindowStep(WindowAt(ids, count, arr, st, i - st), arr[i]);
  }

  /** Reading a range in place is reading its slice. */
  lemma {:induction false} WindowAtIsAfter(ids: map<seq<bit>, nat>, count: nat, arr: seq<BinaryInstruction>, st: nat, len: nat)
    requires st + len <= |arr|
    ensures WindowAt(ids, count, arr, st, len) == WindowAfter(ids, count, arr[st..st + len])
  {
    if len > 0 {
      WindowAtIsAfter(ids, count, arr, st, len - 1);
      var s := arr[st..st + len];
      assert s[..len - 1] == arr[st..st + len - 1];
      assert s[len - 1] == arr[st + len - 1];
    }
  }

  lemma WindowRangeIsAfter(ids: map<seq<bit>, nat>, count: nat, arr: seq<BinaryInstruction>, st: int, en: int)
    ensures WindowRange(ids, count, arr, st, en) == WindowAfter(ids, count, Slice(arr, st, en))
  {
    if 0 <= st < en <= |arr| {
      WindowAtIsAfter(ids, count, arr, st, en - st);
    }
  }

  /** The loop over one instruction's arguments: each value is looked up in, or added to, the window's map. */
  method InternArguments(argMap0: map<seq<bit>, nat>, argCount0: nat, args: seq<seq<bit>>)
    returns (argMap: map<seq<bit>, nat>, argCount: nat, slots: seq<nat>)
    ensures InternAll(argMap0, argCount0, args) == InternedAll(argMap, argCount, slots)
  {
    argMap, argCount, slots := argMap0, argCount0, [];
    for j := 0 to |args|
      invariant InternAll(argMap0, argCount0, args[..j]) == InternedAll(argMap, argCount, slots)
    {
      assert args[..j + 1][..j] == args[..j];
      if args[j] !in argMap {
        argMap := argMap[args[j] := argCount];
        slots := slots + [argCount];
        argCount := argCount + 1;
      } else {
        slots := slots + [argMap[args[j]]];
      }
    }
    assert args[..|args|] == args;
  }

  /** The InstructionPattern(arr, st, en) constructor, with the opcode table as the object it updates. */
  method NewWindow(table: OpCodeTable, arr: seq<BinaryInstruction>, st: int, en: int) returns (p: InstructionPattern)
    requires table.Valid() && (st < en ==> 0 <= st && en <= |arr|)
    modifies table
    ensures table.Valid()
    ensures var w := WindowRange(old(table.ids), old(table.count), arr, st, en);
            p.instructions == w.instructions && table.ids == w.ids && table.count == w.count
  {
    ghost var ids0, count0 := table.ids, table.count;
    var instructions: seq<SimplifiedInstruction> := [];
    var argMap: map<seq<bit>, nat> := map[];
    var argCount: nat := 0;
    var i := st;
    while i < en
      invariant st < en ==> st <= i <= en
      invariant st >= en ==> i == st
      invariant table.Valid()
      invariant WindowRange(ids0, count0, arr, st, i) ==
                WindowState(table.ids, table.count, argMap, argCount, instructions)
    {
      WindowRangeStep(ids0, count0, arr, st, i);
      var id := table.Canonicalize(arr[i].opCode);
      var slots;
      argMap, argCount, slots := InternArguments(argMap, argCount, arr[i].arguments);
      instructions := instructions + [SimplifiedInstruction(id, slots)];
      i := i + 1;
    }
    p := InstructionPattern(instructions);
  }

  /** The tables of a window state stay dense and keep their ids. */
  ghost predicate TablesGrow(w: WindowState, w': WindowState)
  {
    TableInvariant(w'.ids, w'.count) && TableInvariant(w'.argMap, w'.argCount) &&
    forall op :: op in w.ids ==> op in w'.ids && w'.ids[op] == w.ids[op]
  }

  lemma WindowStepTables(w: WindowState, inst: BinaryInstruction)
    requires TableInvariant(w.ids, w.count) && TableInvariant(w.argMap, w.argCount)
    ensures TablesGrow(w, WindowStep(w, inst)) && inst.opCode in WindowStep(w, inst).ids
  {
    InternGrows(w.ids, w.count, inst.opCode);
    InternAllGrows(w.argMap, w.argCount, inst.arguments);
  }

  /** The opcode table stays dense and keeps every earlier id, and the window's map is dense. */
  lemma {:induction false} WindowTables(ids: map<seq<bit>, nat>, count: nat, win: seq<BinaryInstruction>)
    requires TableInvariant(ids, count)
    ensures TablesGrow(WindowState(ids, count, map[], 0, []), WindowAfter(ids, count, win))
  {
    if win == [] {
      assert IdRange(0) == {};
    } else {
      var n := |win| - 1;
      WindowTables(ids, count, win[..n]);
      WindowStepTables(WindowAfter(ids, count, win[..n]), win[n]);
    }
  }

  /** ids' keeps every entry of ids. */
  ghost predicate Extends(ids: map<seq<bit>, nat>, ids': map<seq<bit>, nat>)
  {
    forall op :: op in ids ==> op in ids' && ids'[op] == ids[op]
  }

  /** Every opcode of the window is in the final table, which keeps every earlier entry. */
  lemma {:induction false} WindowOpCodesKnown(ids: map<seq<bit>, nat>, count: nat, win: seq<BinaryInstruction>)
    ensures var w := WindowAfter(ids, count, win);
            Extends(ids, w.ids) && forall k :: 0 <= k < |win| ==> win[k].opCode in w.ids
  {
    if win != [] {
      var n := |win| - 1;
      WindowOpCodesKnown(ids, count, win[..n]);
      forall k | 0 <= k < n
        ensures win[k] == win[..n][k]
      {
      }
    }
  }

  /**
   * The window's shape and opcodes: one simplified instruction per
   * instruction, with as many argument slots as it has arguments, and the
   * opcode id the final table gives its opcode.
   */
  lemma {:induction false} WindowShape(ids: map<seq<bit>, nat>, count: nat, win: seq<BinaryInstruction>)
    ensures var w := WindowAfter(ids, count, win);
            |w.instructions| == |win| &&
            forall k :: 0 <= k < |win| ==>
              |w.instructions[k].arguments| == |win[k].arguments| &&
              win[k].opCode in w.ids && w.instructions[k].opCode == w.ids[win[k].opCode]
  {
    if win != [] {
      var n := |win| - 1;
      WindowShape(ids, count, win[..n]);
      var p := WindowAfter(ids, count, win[..n]);
      var w := WindowAfter(ids, count, win);
      assert Extends(p.ids, w.ids);
      forall k | 0 <= k < n
        ensures win[k] == win[..n][k] && w.instructions[k] == p.instructions[k]
      {
      }
    }
  }

  // ---------------------------------------------------------------------------
  // Argument numbering over a whole window

  /** The argument values of the window, instruction after instruction. */
  function WindowValues(win: seq<BinaryInstruction>): seq<seq<bit>>
  {
    if win == [] then [] else WindowValues(win[..|win| - 1]) + win[|win| - 1].arguments
  }

  /** The argument slots of a pattern, instruction after instruction. */
  function PatternSlots(ins: seq<SimplifiedInstruction>): seq<nat>
  {
    if ins == [] then [] else PatternSlots(ins[..|ins| - 1]) + ins[|ins| - 1].arguments
  }

  /** Interning xs and then ys interns xs + ys. */
  lemma {:induction false} InternAllAppend(ids: map<seq<bit>, nat>, count: nat, xs: seq<seq<bit>>, ys: seq<seq<bit>>)
    ensures var p := InternAll(ids, count, xs);
            var q := InternAll(p.ids, p.count, ys);
            InternAll(ids, count, xs + ys) == InternedAll(q.ids, q.count, p.slots + q.slots)
  {
    if ys != [] {
      var n := |ys| - 1;
      InternAllAppend(ids, count, xs, ys[..n]);
      assert (xs + ys)[..|xs + ys| - 1] == xs + ys[..n];
    } else {
      assert xs + ys == xs;
    }
  }

  /** The window's argument map is the first-seen numbering of all its argument values. */
  lemma {:induction false} WindowNumbering(ids: map<seq<bit>, nat>, count: nat, win: seq<BinaryInstruction>)
    ensures var w := WindowAfter(ids, count, win);
            InternAll(map[], 0, WindowValues(win)) == InternedAll(w.argMap, w.argCount, PatternSlots(w.instructions))
  {
    if win != [] {
      var n := |win| - 1;
      WindowNumbering(ids, count, win[..n]);
      InternAllAppend(map[], 0, WindowValues(win[..n]), win[n].arguments);
      var w := WindowAfter(ids, count, win);
      assert w.instructions[..|w.instructions| - 1] == WindowAfter(ids, count, win[..n]).instructions;
    }
  }

  /**
   * Within one window, two argument positions get the same slot exactly when
   * their bit strings are equal, and a value first seen at a position gets
   * the number of distinct values before it in the window.
   */
  lemma WindowArguments(ids: map<seq<bit>, nat>, count: nat, win: seq<BinaryInstruction>)
    ensures var vals := WindowValues(win);
            var slots := PatternSlots(WindowAfter(ids, count, win).instructions);
            |slots| == |vals| &&
            (forall a, b :: 0 <= a < |vals| && 0 <= b < |vals| ==> (slots[a] == slots[b] <==> vals[a] == vals[b])) &&
            (forall a :: 0 <= a < |vals| && vals[a] !in vals[..a] ==> slots[a] == |Elements(vals[..a])|)
  {
    WindowNumbering(ids, count, win);
    FirstSeenNumbering(WindowValues(win));
  }

  // ---------------------------------------------------------------------------
  // Equal windows

  /** The window's argument numbering does not depend on the opcode table. */
  lemma {:induction false} ArgumentsIgnoreTable(ids: map<seq<bit>, nat>, count: nat,
                                                ids2: map<seq<bit>, nat>, count2: nat, win: seq<BinaryInstruction>)
    ensures var w1, w2 := WindowAfter(ids, count, win), WindowAfter(ids2, count2, win);
            w1.argMap == w2.argMap && w1.argCount == w2.argCount && |w1.instructions| == |w2.instructions| &&
            forall k :: 0 <= k < |w1.instructions| ==> w1.instructions[k].arguments == w2.instructions[k].arguments
  {
    if win != [] {
      ArgumentsIgnoreTable(ids, count, ids2, count2, win[..|win| - 1]);
    }
  }

  /**
   * A window read again with a table that already holds its opcodes under
   * the ids the first reading gave them yields the same pattern: assigned
   * opcode ids never change.
   */
  lemma WindowAgain(ids: map<seq<bit>, nat>, count: nat, ids2: map<seq<bit>, nat>, count2: nat,
                    win: seq<BinaryInstruction>)
    requires Extends(WindowAfter(ids, count, win).ids, ids2)
    ensures WindowAfter(ids2, count2, win).instructions == WindowAfter(ids, count, win).instructions
  {
    var w1, w2 := WindowAfter(ids, count, win), WindowAfter(ids2, count2, win);
    WindowShape(ids, count, win);
    WindowShape(ids2, count2, win);
    WindowOpCodesKnown(ids2, count2, win);
    ArgumentsIgnoreTable(ids, count, ids2, count2, win);
    forall k | 0 <= k < |win|
      ensures w2.instructions[k] == w1.instructions[k]
    {
      var op := win[k].opCode;
      assert w2.instructions[k].opCode == w2.ids[op] == ids2[op] == w1.ids[op] == w1.instructions[k].opCode;
    }
  }

  /** The same instructions read twice in a row give equal patterns. */
  lemma EqualWindows(ids: map<seq<bit>, nat>, count: nat, win1: seq<BinaryInstruction>, win2: seq<BinaryInstruction>)
    requires win1 == win2
    ensures var w1 := WindowAfter(ids, count, win1);
            WindowAfter(w1.ids, w1.count, win2).instructions == w1.instructions
  {
    var w1 := WindowAfter(ids, count, win1);
    WindowAgain(ids, count, w1.ids, w1.count, win1);
  }

  // ---------------------------------------------------------------------------
  // mapNGramsWithN and mapNGrams

  /** The number of windows of length n in a code of length len: the iterations of i <= len - n from 0. */
  function NumWindows(len: nat, n: int): nat
  {
    if len - n + 1 > 0 then len - n + 1 else 0
  }

  /** The shared opcode table: its map and its counter. */
  datatype TableState = TableState(ids: map<seq<bit>, nat>, count: nat)

  /** The table and the patterns after the first m windows of length n, read from table t. */
  datatype ProfileState = ProfileState(table: TableState, patterns: seq<InstructionPattern>)

  function WindowsFrom(t: TableState, code: seq<BinaryInstruction>, n: int, m: nat): (r: ProfileState)
    ensures |r.patterns| == m
  {
    if m == 0 then ProfileState(t, [])
    else
      var p := WindowsFrom(t, code, n, m - 1);
      var w := WindowRange(p.table.ids, p.table.count, code, m - 1, m - 1 + n);
      ProfileState(TableState(w.ids, w.count), p.patterns + [InstructionPattern(w.instructions)])
  }

  /** f holds the patterns of all windows of length n, in order, read from table t. */
  ghost predicate ProfileOf(f: FrequencyMap, t: TableState, code: seq<BinaryInstruction>, n: int)
    reads f
  {
    f.Valid() && f.added == WindowsFrom(t, code, n, NumWindows(|code|, n)).patterns
  }

  /** The loop test of mapNGramsWithN admits exactly the windows. */
  lemma LoopTest(len: nat, n: int, i: nat)
    requires i <= NumWindows(len, n)
    ensures i <= len - n <==> i < NumWindows(len, n)
  {
  }

  /** mapNGramsWithN: a profile of every window of length n, in order. */
  method MapNGramsWithN(table: OpCodeTable, code: seq<BinaryInstruction>, n: int) returns (sol: FrequencyMap)
    requires table.Valid()
    modifies table
    ensures fresh(sol) && table.Valid() && sol.Valid()
    ensures var r := WindowsFrom(TableState(old(table.ids), old(table.count)), code, n, NumWindows(|code|, n));
            sol.added == r.patterns && TableState(table.ids, table.count) == r.table
  {
    ghost var t0 := TableState(table.ids, table.count);
    sol := new FrequencyMap();
    var i := 0;
    while i <= |code| - n
      invariant 0 <= i <= NumWindows(|code|, n)
      invariant sol.Valid() && table.Valid()
      invariant ProfileState(TableState(table.ids, table.count), sol.added) == WindowsFrom(t0, code, n, i)
    {
      LoopTest(|code|, n, i);
      var p := NewWindow(table, code, i, i + n);
      sol.Add(p);
      i := i + 1;
    }
    LoopTest(|code|, n, i);
  }

  /** One window more: the table keeps its entries and the earlier patterns stay. */
  lemma WindowsStep(t: TableState, code: seq<BinaryInstruction>, n: int, m: nat)
    ensures var p, r := WindowsFrom(t, code, n, m), WindowsFrom(t, code, n, m + 1);
            Extends(p.table.ids, r.table.ids) && r.patterns[..m] == p.patterns
  {
    var p := WindowsFrom(t, code, n, m);
    WindowRangeIsAfter(p.table.ids, p.table.count, code, m, m + n);
    WindowOpCodesKnown(p.table.ids, p.table.count, Slice(code, m, m + n));
  }

  /** Later states extend earlier ones: an opcode keeps the id it was given, and the patterns only grow. */
  lemma {:induction false} WindowsExtend(t: TableState, code: seq<BinaryInstruction>, n: int, m1: nat, m2: nat)
    requires m1 <= m2
    ensures var r1, r2 := WindowsFrom(t, code, n, m1), WindowsFrom(t, code, n, m2);
            Extends(r1.table.ids, r2.table.ids) && r2.patterns[..m1] == r1.patterns
    decreases m2
  {
    var r1, r2 := WindowsFrom(t, code, n, m1), WindowsFrom(t, code, n, m2);
    if m1 < m2 {
      var p := WindowsFrom(t, code, n, m2 - 1);
      WindowsExtend(t, code, n, m1, m2 - 1);
      WindowsStep(t, code, n, m2 - 1);
      assert Extends(r1.table.ids, r2.table.ids) by {
        assert Extends(r1.table.ids, p.table.ids) && Extends(p.table.ids, r2.table.ids);
      }
      assert r2.patterns[..m1] == r2.patterns[..m2 - 1][..m1];
    } else {
      assert r2.patterns[..m1] == r2.patterns;
    }
  }

  /** The state after window q: its table and its last pattern come from reading window q. */
  lemma WindowsLast(t: TableState, code: seq<BinaryInstruction>, n: int, q: nat)
    ensures var p := WindowsFrom(t, code, n, q);
            var w := WindowRange(p.table.ids, p.table.count, code, q, q + n);
            var r := WindowsFrom(t, code, n, q + 1);
            r.table.ids == w.ids && r.patterns[q] == InstructionPattern(w.instructions)
  {
  }

  /** The pattern of window q, once read, stays the q-th pattern of every later state. */
  lemma PatternKept(t: TableState, code: seq<BinaryInstruction>, n: int, q: nat, m: nat)
    requires q < m
    ensures WindowsFrom(t, code, n, m).patterns[q] == WindowsFrom(t, code, n, q + 1).patterns[q]
  {
    WindowsExtend(t, code, n, q + 1, m);
    var ps := WindowsFrom(t, code, n, m).patterns;
    assert ps[q] == ps[..q + 1][q];
  }

  /** An equal range read again with a table that kept the first reading's ids gives the same instructions. */
  lemma RangeAgain(ta: TableState, tb: TableState, code: seq<BinaryInstruction>, n: int, a: nat, b: nat)
    requires Slice(code, a, a + n) == Slice(code, b, b + n)
    requires Extends(WindowRange(ta.ids, ta.count, code, a, a + n).ids, tb.ids)
    ensures WindowRange(tb.ids, tb.count, code, b, b + n).instructions ==
            WindowRange(ta.ids, ta.count, code, a, a + n).instructions
  {
    if 0 < n && a + n <= |code| && b + n <= |code| {
      var win := code[a..a + n];
      assert WindowRange(ta.ids, ta.count, code, a, a + n) == WindowAt(ta.ids, ta.count, code, a, n);
      assert WindowRange(tb.ids, tb.count, code, b, b + n) == WindowAt(tb.ids, tb.count, code, b, n);
      WindowAtIsAfter(ta.ids, ta.count, code, a, n);
      WindowAtIsAfter(tb.ids, tb.count, code, b, n);
      WindowAgain(ta.ids, ta.count, tb.ids, tb.count, win);
    }
  }

  /** Windows with equal instructions give equal patterns, wherever they are in the code. */
  lemma SameWindowPattern(t: TableState, code: seq<BinaryInstruction>, n: int, a: nat, b: nat)
    requires a < b
    requires Slice(code, a, a + n) == Slice(code, b, b + n)
    ensures WindowsFrom(t, code, n, a + 1).patterns[a] == WindowsFrom(t, code, n, b + 1).patterns[b]
  {
    var pa, pb := WindowsFrom(t, code, n, a).table, WindowsFrom(t, code, n, b).table;
    WindowsLast(t, code, n, a);
    WindowsLast(t, code, n, b);
    WindowsExtend(t, code, n, a + 1, b);
    RangeAgain(pa, pb, code, n, a, b);
  }

  /** Within one profile, windows with equal instructions are one pattern. */
  lemma ProfileEqualWindows(t: TableState, code: seq<BinaryInstruction>, n: int, a: nat, b: nat)
    requires a < b < NumWindows(|code|, n)
    requires Slice(code, a, a + n) == Slice(code, b, b + n)
    ensures var ps := WindowsFrom(t, code, n, NumWindows(|code|, n)).patterns;
            ps[a] == ps[b]
  {
    var m := NumWindows(|code|, n);
    PatternKept(t, code, n, a, m);
    PatternKept(t, code, n, b, m);
    SameWindowPattern(t, code, n, a, b);
  }

  /** Two entries of a history with the same pattern count at least twice. */
  lemma TwiceCounted(f: FrequencyMap, a: nat, b: nat)
    requires f.Valid() && a < b < |f.added| && f.added[a] == f.added[b]
    ensures CountOf(f.m, f.added[a]) >= 2
  {
    ProfileTotals(f);
    var s := f.added;
    assert s == s[..b] + [s[b]] + s[b + 1..];
    assert s[..b][a] == s[a];
    assert multiset(s)[s[a]] >= multiset(s[..b])[s[a]] + 1;
  }

  /** In a profile, windows with equal instructions share one count, which is at least two. */
  lemma ProfileCountsEqualWindows(f: FrequencyMap, t: TableState, code: seq<BinaryInstruction>, n: int, a: nat, b: nat)
    requires ProfileOf(f, t, code, n)
    requires a < b < NumWindows(|code|, n)
    requires Slice(code, a, a + n) == Slice(code, b, b + n)
    ensures f.added[a] == f.added[b] && CountOf(f.m, f.added[a]) >= 2
  {
    ProfileEqualWindows(t, code, n, a, b);
    TwiceCounted(f, a, b);
  }

  /** Each pattern of a profile has one instruction per instruction of its window: n, or none when n <= 0. */
  lemma {:induction false} WindowsShape(t: TableState, code: seq<BinaryInstruction>, n: int, m: nat)
    requires m <= NumWindows(|code|, n)
    ensures forall q :: 0 <= q < m ==> |WindowsFrom(t, code, n, m).patterns[q].instructions| == if n > 0 then n else 0
  {
    if m > 0 {
      WindowsShape(t, code, n, m - 1);
      WindowsStep(t, code, n, m - 1);
      var r := WindowsFrom(t, code, n, m).patterns;
      forall q | 0 <= q < m - 1
        ensures r[q] == r[..m - 1][q]
      {
      }
    }
  }

  /** A profile counts NumWindows windows, each a pattern of n instructions (none when n <= 0). */
  lemma ProfileShape(f: FrequencyMap, t: TableState, code: seq<BinaryInstruction>, n: int)
    requires ProfileOf(f, t, code, n)
    ensures f.n == NumWindows(|code|, n) == SumCounts(f.m)
    ensures forall q :: 0 <= q < |f.added| ==> |f.added[q].instructions| == if n > 0 then n else 0
  {
    ProfileTotals(f);
    WindowsShape(t, code, n, NumWindows(|code|, n));
  }

  /** The table and the profile histories after the window lengths MinN .. MinN + k - 1. */
  datatype NGramState = NGramState(table: TableState, histories: seq<seq<InstructionPattern>>)

  function NGramsFrom(t: TableState, code: seq<BinaryInstruction>, k: nat): (r: NGramState)
    ensures |r.histories| == k
  {
    if k == 0 then NGramState(t, [])
    else
      var p := NGramsFrom(t, code, k - 1);
      var n := MinN + k - 1;
      var r := WindowsFrom(p.table, code, n, NumWindows(|code|, n));
      NGramState(r.table, p.histories + [r.patterns])
  }

  /** One window length more: its profile is read from the table the shorter lengths left. */
  lemma NGramsStep(t: TableState, code: seq<BinaryInstruction>, k: nat)
    ensures var p := NGramsFrom(t, code, k);
            var r := WindowsFrom(p.table, code, MinN + k, NumWindows(|code|, MinN + k));
            NGramsFrom(t, code, k + 1) == NGramState(r.table, p.histories + [r.patterns])
  {
  }

  /** No element occurs twice in s: each one is new to the elements before it. */
  predicate Distinct<T(==)>(s: seq<T>)
  {
    s == [] || (Distinct(s[..|s| - 1]) && s[|s| - 1] !in s[..|s| - 1])
  }

  lemma DistinctSnoc<T>(s: seq<T>, x: T)
    requires Distinct(s) && x !in s
    ensures Distinct(s + [x])
  {
    assert (s + [x])[..|s|] == s;
  }

  /** Distinct elements are pairwise different. */
  lemma {:induction false} DistinctPairwise<T>(s: seq<T>)
    requires Distinct(s)
    ensures forall k, k' :: 0 <= k < k' < |s| ==> s[k] != s[k']
  {
    if s != [] {
      var init := s[..|s| - 1];
      DistinctPairwise(init);
      forall k, k' | 0 <= k < k' < |s|
        ensures s[k] != s[k']
      {
        assert s[k] == init[k];
        if k' < |s| - 1 {
          assert s[k'] == init[k'];
        } else {
          assert init[k] in init;
        }
      }
    }
  }

  /** One length of mapNGrams: the profile for n, which extends the n-gram state by one history. */
  method NextProfile(table: OpCodeTable, code: seq<BinaryInstruction>, n: int,
                     ghost t0: TableState, ghost histories: seq<seq<InstructionPattern>>)
    returns (sol: FrequencyMap)
    requires table.Valid() && MinN <= n
    requires NGramsFrom(t0, code, n - MinN) == NGramState(TableState(table.ids, table.count), histories)
    modifies table
    ensures fresh(sol) && table.Valid() && sol.Valid()
    ensures NGramsFrom(t0, code, n + 1 - MinN) == NGramState(TableState(table.ids, table.count), histories + [sol.added])
  {
    sol := MapNGramsWithN(table, code, n);
    NGramsStep(t0, code, n - MinN);
  }

  /** mapNGrams: the profiles for window lengths MinN .. MaxN, in order, sharing one opcode table. */
  method MapNGrams(table: OpCodeTable, code: seq<BinaryInstruction>) returns (profiles: seq<FrequencyMap>)
    requires table.Valid()
    modifies table
    ensures table.Valid()
    ensures |profiles| == MaxN - MinN + 1
    ensures var r := NGramsFrom(TableState(old(table.ids), old(table.count)), code, |profiles|);
            |profiles| == |r.histories| && TableState(table.ids, table.count) == r.table &&
            forall k :: 0 <= k < |profiles| ==> profiles[k].Valid() && profiles[k].added == r.histories[k]
    ensures forall k :: 0 <= k < |profiles| ==> fresh(profiles[k])
    ensures Distinct(profiles)
  {
    ghost var t0 := TableState(table.ids, table.count);
    ghost var histories: seq<seq<InstructionPattern>> := [];
    profiles := [];
    for n := MinN to MaxN + 1
      invariant table.Valid()
      invariant |profiles| == |histories| == n - MinN
      invariant NGramsFrom(t0, code, n - MinN) == NGramState(TableState(table.ids, table.count), histories)
      invariant forall k :: 0 <= k < |profiles| ==>
                  fresh(profiles[k]) && profiles[k].Valid() && profiles[k].added == histories[k]
      invariant Distinct(profiles)
    {
      var sol := NextProfile(table, code, n, t0, histories);
      DistinctSnoc(profiles, sol);
      profiles := profiles + [sol];
      histories := histories + [sol.added];
    }
  }


  /** Entry k of mapNGrams is the profile of the windows of length MinN + k, read from the table the shorter lengths left. */
  lemma {:induction false} NGramsAt(t: TableState, code: seq<BinaryInstruction>, k: nat, m: nat)
    requires k < m
    ensures var n := MinN + k;
            NGramsFrom(t, code, m).histories[k] == WindowsFrom(NGramsFrom(t, code, k).table, code, n, NumWindows(|code|, n)).patterns
    decreases m
  {
    if k < m - 1 {
      NGramsAt(t, code, k, m - 1);
      var h := NGramsFrom(t, code, m).histories;
      assert h[k] == h[..m - 1][k];
    }
  }

  /** Every profile of mapNGrams counts the windows of its length, each a pattern of that many instructions. */
  lemma NGramShapes(t: TableState, code: seq<BinaryInstruction>, k: nat)
    requires k <= MaxN - MinN
    ensures var h := NGramsFrom(t, code, MaxN - MinN + 1).histories[k];
            |h| == NumWindows(|code|, MinN + k) &&
            forall q :: 0 <= q < |h| ==> |h[q].instructions| == MinN + k
  {
    NGramsAt(t, code, k, MaxN - MinN + 1);
    var n := MinN + k;
    WindowsShape(NGramsFrom(t, code, k).table, code, n, NumWindows(|code|, n));
  }
}
