/** The reference-counted per-key locks (internal/cache/key_mutation_gate.go and
    internal/compilecache/key_lock.go).

    Each method below is one atomic step of the gate: what it does under its mutex, or one channel
    operation.  Callers interleave these steps in any order.  Entries live in cells, so that a caller
    can still hold a cell whose key has been deleted from the map and created again. */
module KeyGate {
  import opened Wrappers

  /** The token channel has capacity one; token counts what is in it. */
  datatype Cell = Cell(token: nat, refs: int)

  datatype Stage = Waiting | Taken | Admitted | Leaving

  /** A caller that has acquired a cell and not fully released it. */
  datatype Caller = Caller(key: string, cell: nat, stage: Stage)

  datatype Gate = Gate(entries: map<string, nat>, cells: map<nat, Cell>, callers: map<nat, Caller>)

  const EMPTY := Gate(map[], map[], map[])

  function Users(g: Gate, cell: nat): set<nat> {
    set p | p in g.callers && g.callers[p].cell == cell
  }

  predicate HasToken(c: Caller) {
    c.stage.Taken? || c.stage.Admitted?
  }

  function Owners(g: Gate, cell: nat): set<nat> {
    set p | p in g.callers && g.callers[p].cell == cell && HasToken(g.callers[p])
  }

  /** The token is in the channel or with exactly one caller, and the references are the callers. */
  ghost predicate CellInv(g: Gate, cell: nat) {
    if cell in g.cells then
      g.cells[cell].token + |Owners(g, cell)| == 1 && g.cells[cell].refs == |Users(g, cell)|
    else Users(g, cell) == {}
  }

  ghost predicate CallerInv(g: Gate, p: nat) {
    p in g.callers ==> g.callers[p].key in g.entries && g.entries[g.callers[p].key] == g.callers[p].cell
  }

  /** A key is in the map exactly while somebody refers to its cell. */
  ghost predicate EntryInv(g: Gate, key: string) {
    key in g.entries ==> g.entries[key] in g.cells && g.cells[g.entries[key]].refs > 0 && OneKey(g, key)
  }

  ghost predicate OneKey(g: Gate, key: string)
    requires key in g.entries
  {
    forall p | p in g.callers && g.callers[p].cell == g.entries[key] :: g.callers[p].key == key
  }

  ghost predicate Inv(g: Gate) {
    (forall cell :: CellInv(g, cell)) && (forall p :: CallerInv(g, p)) && (forall key :: EntryInv(g, key))
  }

  // ---------------------------------------------------------------- what the invariant gives

  /** Mutual exclusion, however often the entry has been deleted and created again. */
  lemma MutualExclusion(g: Gate, p: nat, q: nat)
    requires Inv(g) && p in g.callers && q in g.callers && g.callers[p].key == g.callers[q].key
    requires HasToken(g.callers[p]) && HasToken(g.callers[q])
    ensures p == q
  {
    assert CallerInv(g, p) && CallerInv(g, q) && CellInv(g, g.callers[p].cell);
    var owners := Owners(g, g.callers[p].cell);
    if p != q {
      assert {p, q} <= owners;
      SubsetSize({p, q}, owners);
    }
  }

  lemma SubsetSize<T>(a: set<T>, b: set<T>)
    requires a <= b
    ensures |a| <= |b|
  {
    assert b == a + (b - a);
  }

  /** Giving the token back never blocks: the channel is empty while somebody has the token. */
  lemma ReleaseNeverBlocks(g: Gate, p: nat)
    requires Inv(g) && p in g.callers && HasToken(g.callers[p])
    ensures g.callers[p].cell in g.cells && g.cells[g.callers[p].cell].token == 0
  {
    assert CellInv(g, g.callers[p].cell);
    assert p in Users(g, g.callers[p].cell);
    SubsetSize({p}, Owners(g, g.callers[p].cell));
  }

  /** A key that nobody waits for, holds or is leaving has no entry: nothing is left behind. */
  lemma NothingLeaks(g: Gate, key: string)
    requires Inv(g)
    ensures key in g.entries <==> exists p :: p in g.callers && g.callers[p].key == key
  {
    assert EntryInv(g, key);
    if key in g.entries {
      assert CellInv(g, g.entries[key]);
      var p :| p in Users(g, g.entries[key]);
      assert g.callers[p].key == key;
    }
    forall p | p in g.callers && g.callers[p].key == key
      ensures key in g.entries
    {
      assert CallerInv(g, p);
    }
  }

  /** A waiting caller can take the token as soon as nobody has it. */
  lemma WaiterCanProceed(g: Gate, p: nat)
    requires Inv(g) && p in g.callers && g.callers[p].stage.Waiting?
    requires forall q | q in g.callers && g.callers[q].key == g.callers[p].key :: !HasToken(g.callers[q])
    ensures g.callers[p].cell in g.cells && g.cells[g.callers[p].cell].token == 1
  {
    var cell := g.callers[p].cell;
    assert CallerInv(g, p) && EntryInv(g, g.callers[p].key) && CellInv(g, cell);
    assert p in Users(g, cell);
    assert Owners(g, cell) == {};
  }

  // ---------------------------------------------------------------- the steps on the value

  function AcquireOn(g: Gate, p: nat, key: string, unused: nat): Gate {
    var cell := if key in g.entries then g.entries[key] else unused;
    var c := if key in g.entries && cell in g.cells then g.cells[cell] else Cell(1, 0);
    Gate(g.entries[key := cell], g.cells[cell := c.(refs := c.refs + 1)], g.callers[p := Caller(key, cell, Waiting)])
  }

  function MoveOn(g: Gate, p: nat, stage: Stage, token: int): Gate
    requires p in g.callers && g.callers[p].cell in g.cells && g.cells[g.callers[p].cell].token + token >= 0
  {
    var cell := g.callers[p].cell;
    g.(cells := g.cells[cell := g.cells[cell].(token := g.cells[cell].token + token)],
       callers := g.callers[p := g.callers[p].(stage := stage)])
  }

  function LeaveOn(g: Gate, p: nat): Gate
    requires p in g.callers && g.callers[p].cell in g.cells
  {
    var key, cell := g.callers[p].key, g.callers[p].cell;
    var refs := g.cells[cell].refs - 1;
    Gate(if refs == 0 && key in g.entries && g.entries[key] == cell then g.entries - {key} else g.entries,
         g.cells[cell := g.cells[cell].(refs := refs)], g.callers - {p})
  }

  lemma UsersAfterSet(g: Gate, h: Gate, p: nat, c: Caller, cell: nat)
    requires h.callers == g.callers[p := c]
    ensures Users(h, cell) == (if c.cell == cell then Users(g, cell) + {p} else Users(g, cell) - {p})
    ensures Owners(h, cell) == (if c.cell == cell && HasToken(c) then Owners(g, cell) + {p} else Owners(g, cell) - {p})
  {
  }

  lemma UsersAfterDrop(g: Gate, h: Gate, p: nat, cell: nat)
    requires h.callers == g.callers - {p}
    ensures Users(h, cell) == Users(g, cell) - {p} && Owners(h, cell) == Owners(g, cell) - {p}
  {
  }

  lemma AcquiredCell(g: Gate, h: Gate, p: nat, key: string, unused: nat, cell: nat)
    requires p !in g.callers && unused !in g.cells && h == AcquireOn(g, p, key, unused)
    requires CellInv(g, cell) && (key in g.entries ==> g.entries[key] in g.cells)
    ensures CellInv(h, cell)
  {
    UsersAfterSet(g, h, p, Caller(key, h.entries[key], Waiting), cell);
    assert p !in Users(g, cell) && p !in Owners(g, cell);
    if cell !in g.cells {
      assert Owners(g, cell) <= Users(g, cell);
    }
  }

  lemma AcquiredEntry(g: Gate, h: Gate, p: nat, key: string, unused: nat, other: string)
    requires Inv(g) && p !in g.callers && unused !in g.cells && h == AcquireOn(g, p, key, unused)
    ensures EntryInv(h, other)
  {
    assert EntryInv(g, other) && EntryInv(g, key) && CellInv(g, unused);
    if key in g.entries {
      assert CellInv(g, g.entries[key]);
      if other in g.entries && other != key {
        OtherCell(g, other, key);
      }
    } else {
      forall q | q in g.callers
        ensures g.callers[q].cell != unused
      {
        assert q in Users(g, g.callers[q].cell);
      }
    }
  }

  lemma AcquireKeepsInv(g: Gate, p: nat, key: string, unused: nat)
    requires Inv(g) && p !in g.callers && unused !in g.cells
    ensures Inv(AcquireOn(g, p, key, unused))
  {
    var h := AcquireOn(g, p, key, unused);
    assert EntryInv(g, key);
    forall cell
      ensures CellInv(h, cell)
    {
      assert CellInv(g, cell);
      AcquiredCell(g, h, p, key, unused, cell);
    }
    forall q
      ensures CallerInv(h, q)
    {
      assert CallerInv(g, q);
    }
    forall other
      ensures EntryInv(h, other)
    {
      AcquiredEntry(g, h, p, key, unused, other);
    }
  }

  lemma OtherCell(g: Gate, other: string, key: string)
    requires Inv(g) && other in g.entries && key in g.entries && other != key
    ensures g.entries[key] != g.entries[other]
  {
    assert EntryInv(g, other) && EntryInv(g, key) && CellInv(g, g.entries[other]);
    var p :| p in Users(g, g.entries[other]);
    assert g.callers[p].key == other;
  }

  function Weight(stage: Stage): int {
    if stage.Taken? || stage.Admitted? then 1 else 0
  }

  lemma MovedCell(g: Gate, h: Gate, p: nat, stage: Stage, cell: nat)
    requires p in g.callers && CellInv(g, cell) && CellInv(g, g.callers[p].cell)
    requires g.callers[p].cell in g.cells && g.cells[g.callers[p].cell].token + Weight(g.callers[p].stage) - Weight(stage) >= 0
    requires h == MoveOn(g, p, stage, Weight(g.callers[p].stage) - Weight(stage))
    ensures CellInv(h, cell)
  {
    var c := g.callers[p].(stage := stage);
    UsersAfterSet(g, h, p, c, cell);
    if cell == c.cell {
      assert p in Users(g, cell);
      assert Users(h, cell) == Users(g, cell);
      assert HasToken(g.callers[p]) <==> p in Owners(g, cell);
    } else {
      assert p !in Users(g, cell) && p !in Owners(g, cell);
    }
  }

  lemma MoveKeepsInv(g: Gate, p: nat, stage: Stage)
    requires Inv(g) && p in g.callers
    requires Weight(stage) > Weight(g.callers[p].stage) ==>
               g.callers[p].cell in g.cells && g.cells[g.callers[p].cell].token == 1
    ensures g.callers[p].cell in g.cells
    ensures g.cells[g.callers[p].cell].token + Weight(g.callers[p].stage) - Weight(stage) >= 0
    ensures Inv(MoveOn(g, p, stage, Weight(g.callers[p].stage) - Weight(stage)))
  {
    assert CellInv(g, g.callers[p].cell) && p in Users(g, g.callers[p].cell);
    var h := MoveOn(g, p, stage, Weight(g.callers[p].stage) - Weight(stage));
    forall cell
      ensures CellInv(h, cell)
    {
      assert CellInv(g, cell);
      MovedCell(g, h, p, stage, cell);
    }
    forall q
      ensures CallerInv(h, q)
    {
      assert CallerInv(g, q);
    }
    forall key
      ensures EntryInv(h, key)
    {
      assert EntryInv(g, key);
    }
  }

  lemma LeftCell(g: Gate, h: Gate, p: nat, cell: nat)
    requires p in g.callers && g.callers[p].stage.Leaving? && g.callers[p].cell in g.cells && CellInv(g, cell)
    requires h == LeaveOn(g, p)
    ensures CellInv(h, cell)
  {
    UsersAfterDrop(g, h, p, cell);
    assert p !in Owners(g, cell);
    assert p in Users(g, cell) <==> cell == g.callers[p].cell;
  }

  lemma LeaveKeepsInv(g: Gate, p: nat)
    requires Inv(g) && p in g.callers && g.callers[p].stage.Leaving?
    ensures g.callers[p].cell in g.cells && Inv(LeaveOn(g, p))
  {
    var key, mine := g.callers[p].key, g.callers[p].cell;
    assert CellInv(g, mine) && p in Users(g, mine);
    var h := LeaveOn(g, p);
    forall cell
      ensures CellInv(h, cell)
    {
      assert CellInv(g, cell);
      LeftCell(g, h, p, cell);
    }
    forall q: nat
      ensures CallerInv(h, q)
    {
      LeftCaller(g, h, p, q);
    }
    forall other
      ensures EntryInv(h, other)
    {
      LeftEntry(g, h, p, other);
    }
  }

  lemma LeftCaller(g: Gate, h: Gate, p: nat, q: nat)
    requires Inv(g) && p in g.callers && g.callers[p].cell in g.cells && h == LeaveOn(g, p)
    requires CellInv(h, g.callers[p].cell)
    ensures CallerInv(h, q)
  {
    assert CallerInv(g, q) && CallerInv(g, p);
    if q in h.callers && g.callers[q].key == g.callers[p].key {
      assert q in Users(h, g.callers[p].cell);
      SubsetSize({q}, Users(h, g.callers[p].cell));
    }
  }

  lemma LeftEntry(g: Gate, h: Gate, p: nat, key: string)
    requires Inv(g) && p in g.callers && g.callers[p].cell in g.cells && h == LeaveOn(g, p)
    ensures EntryInv(h, key)
  {
    assert CallerInv(g, p) && EntryInv(g, key) && EntryInv(g, g.callers[p].key) && CellInv(g, g.callers[p].cell);
    assert p in Users(g, g.callers[p].cell);
    SubsetSize({p}, Users(g, g.callers[p].cell));
    if key in g.entries && key != g.callers[p].key {
      OtherCell(g, key, g.callers[p].key);
    }
  }

  // ---------------------------------------------------------------- the gate

  class KeyedGate {
    var entries: map<string, nat>
    var cells: map<nat, Cell>
    var callers: map<nat, Caller>
    var unused: nat

    function Now(): Gate
      reads this
    {
      Gate(entries, cells, callers)
    }

    ghost predicate Valid()
      reads this
    {
      Inv(Now()) && forall cell | cell in cells :: cell < unused
    }

    constructor ()
      ensures Valid() && Now() == EMPTY
    {
      entries, cells, callers, unused := map[], map[], map[], 0;
    }

    /** The part of lock and tryLock under the mutex: find or create the entry and count the caller. */
    method Acquire(p: nat, key: string)
      requires Valid() && p !in callers
      modifies this
      ensures Valid() && Now() == AcquireOn(old(Now()), p, key, old(unused))
    {
      AcquireKeepsInv(Now(), p, key, unused);
      assert EntryInv(Now(), key);
      ghost var next := AcquireOn(Now(), p, key, unused);
      if key !in entries {
        cells := cells[unused := Cell(1, 0)];
        entries := entries[key := unused];
        unused := unused + 1;
      }
      var cell := entries[key];
      cells := cells[cell := cells[cell].(refs := cells[cell].refs + 1)];
      callers := callers[p := Caller(key, cell, Waiting)];
      assert entries == next.entries && cells == next.cells;
    }

    /** One channel receive: it succeeds exactly when the token is there. */
    method TryTake(p: nat) returns (taken: bool)
      requires Valid() && p in callers && callers[p].stage.Waiting?
      modifies `cells, `callers
      ensures Valid() && old(callers)[p].cell in old(cells)
      ensures taken <==> old(cells)[old(callers)[p].cell].token == 1
      ensures Now() == if taken then MoveOn(old(Now()), p, Taken, -1) else old(Now())
    {
      var cell := callers[p].cell;
      assert CellInv(Now(), cell) && p in Users(Now(), cell);
      taken := cells[cell].token > 0;
      if taken {
        MoveKeepsInv(Now(), p, Taken);
        cells := cells[cell := cells[cell].(token := cells[cell].token - 1)];
        callers := callers[p := callers[p].(stage := Taken)];
      }
    }

    /** The check after the receive: a caller cancelled in the meantime gives the token back. */
    method Admit(p: nat, cancelled: bool)
      requires Valid() && p in callers && callers[p].stage.Taken?
      modifies `cells, `callers
      ensures Valid() && old(callers)[p].cell in old(cells)
      ensures Now() == if cancelled then MoveOn(old(Now()), p, Leaving, 1) else MoveOn(old(Now()), p, Admitted, 0)
    {
      ReleaseNeverBlocks(Now(), p);
      if cancelled {
        SendToken(p);
      } else {
        MoveKeepsInv(Now(), p, Admitted);
        callers := callers[p := callers[p].(stage := Admitted)];
        assert cells == old(cells)[callers[p].cell := old(cells)[callers[p].cell]];
      }
    }

    /** The send with which a release begins.  The channel is empty, so it does not wait. */
    method SendToken(p: nat)
      requires Valid() && p in callers && HasToken(callers[p])
      modifies `cells, `callers
      ensures Valid() && old(callers)[p].cell in old(cells) && old(cells)[old(callers)[p].cell].token == 0
      ensures Now() == MoveOn(old(Now()), p, Leaving, 1)
    {
      ReleaseNeverBlocks(Now(), p);
      MoveKeepsInv(Now(), p, Leaving);
      var cell := callers[p].cell;
      cells := cells[cell := cells[cell].(token := cells[cell].token + 1)];
      callers := callers[p := callers[p].(stage := Leaving)];
    }

    /** A waiter that is cancelled, or a tryLock that finds no token, leaves without one. */
    method Cancel(p: nat)
      requires Valid() && p in callers && callers[p].stage.Waiting?
      modifies `callers
      ensures Valid() && old(callers)[p].cell in old(cells)
      ensures Now() == MoveOn(old(Now()), p, Leaving, 0)
    {
      MoveKeepsInv(Now(), p, Leaving);
      callers := callers[p := callers[p].(stage := Leaving)];
      assert cells == cells[callers[p].cell := cells[callers[p].cell]];
    }

    /** The rest of a release, under the mutex: the last one out removes the entry. */
    method Leave(p: nat)
      requires Valid() && p in callers && callers[p].stage.Leaving?
      modifies this
      ensures Valid() && old(callers)[p].cell in old(cells) && Now() == LeaveOn(old(Now()), p)
    {
      LeaveKeepsInv(Now(), p);
      var key, cell := callers[p].key, callers[p].cell;
      cells := cells[cell := cells[cell].(refs := cells[cell].refs - 1)];
      if cells[cell].refs == 0 && key in entries && entries[key] == cell {
        entries := entries - {key};
      }
      callers := callers - {p};
    }

    /** The function lock returns: only its first call releases. */
    method Unlock(p: nat)
      requires Valid()
      modifies this
      ensures Valid()
      ensures if p in old(callers) && old(callers)[p].stage.Admitted? then p !in callers else Now() == old(Now())
    {
      if p in callers && callers[p].stage.Admitted? {
        SendToken(p);
        Leave(p);
      }
    }
  }
}
