/**
 * The opcode table: opcode bit strings mapped to densely assigned ids.  The
 * source keeps it in two globals (opCodeMap, opCodeCount); here it is an
 * explicit object passed to the operations that read or extend it.
 */
module OpCodes {
  import opened BitStrings

  /** The ids 0 .. count - 1. */
  function IdRange(count: nat): (r: set<nat>)
    ensures forall id: nat :: id in r <==> id < count
  {
    if count == 0 then {} else IdRange(count - 1) + {count - 1}
  }

  /** Every id 0 .. count - 1 is used, by exactly one opcode. */
  ghost predicate TableInvariant(ids: map<seq<bit>, nat>, count: nat)
  {
    ids.Values == IdRange(count) &&
    forall op1, op2 :: op1 in ids && op2 in ids && ids[op1] == ids[op2] ==> op1 == op2
  }

  /** A table state after a lookup-or-insert, with the id it returned. */
  datatype Interned = Interned(ids: map<seq<bit>, nat>, count: nat, id: nat)

  /** The find-or-insert of the source: a known opcode keeps its id, a new one gets count. */
  function Intern(ids: map<seq<bit>, nat>, count: nat, op: seq<bit>): (r: Interned)
  {
    if op in ids then Interned(ids, count, ids[op])
    else Interned(ids[op := count], count + 1, count)
  }

  /** Whatever the table, the opcode ends up holding the returned id and no other entry changes. */
  lemma InternKeeps(ids: map<seq<bit>, nat>, count: nat, op: seq<bit>)
    ensures var r := Intern(ids, count, op);
            op in r.ids && r.ids[op] == r.id && r.ids.Keys == ids.Keys + {op} &&
            forall k :: k in ids ==> k in r.ids && r.ids[k] == ids[k]
  {
  }

  /**
   * Interning only grows the table: existing ids stay, the returned id is the
   * opcode's entry, and the counter advances exactly when the opcode is new.
   */
  lemma InternGrows(ids: map<seq<bit>, nat>, count: nat, op: seq<bit>)
    requires TableInvariant(ids, count)
    ensures var r := Intern(ids, count, op);
            TableInvariant(r.ids, r.count) &&
            op in r.ids && r.ids[op] == r.id &&
            r.ids.Keys == ids.Keys + {op} &&
            (forall k :: k in ids ==> r.ids[k] == ids[k]) &&
            (op in ids ==> r.count == count && r.id == ids[op]) &&
            (op !in ids ==> r.count == count + 1 && r.id == count)
  {
    if op !in ids {
      var ids' := ids[op := count];
      assert count !in ids.Values;
      assert ids'.Values == ids.Values + {count} by {
        forall v | v in ids'.Values
          ensures v in ids.Values + {count}
        {
          var k :| k in ids' && ids'[k] == v;
          if k != op {
            assert ids[k] == v;
          }
        }
        forall v | v in ids.Values + {count}
          ensures v in ids'.Values
        {
          if v != count {
            var k :| k in ids && ids[k] == v;
            assert ids'[k] == v;
          } else {
            assert ids'[op] == v;
          }
        }
      }
      assert IdRange(count + 1) == IdRange(count) + {count};
    }
  }

  class OpCodeTable {
    var ids: map<seq<bit>, nat>
    var count: nat

    ghost predicate Valid()
      reads this
    {
      TableInvariant(ids, count)
    }

    /** The empty table of a fresh run. */
    constructor ()
      ensures Valid() && ids == map[] && count == 0
    {
      ids := map[];
      count := 0;
      assert IdRange(0) == {};
    }

    /** Looks an opcode up, registering it under the next id when it is new. */
    method Canonicalize(op: seq<bit>) returns (id: nat)
      requires Valid()
      modifies this
      ensures Valid()
      ensures Interned(ids, count, id) == Intern(old(ids), old(count), op)
    {
      InternGrows(ids, count, op);
      if op !in ids {
        ids := ids[op := count];
        id := count;
        count := count + 1;
      } else {
        id := ids[op];
      }
    }
  }
}
