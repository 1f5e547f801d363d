/** Saves and deletions of rack items by any number of requests at once (core/rackitems.py): a save looks its
    place up in one step and writes in a later one, and nothing holds the table in between. */
module RackRace {
  import opened Wrappers
  import opened RackItems

  /** Where a request stands: it has nothing to write, or it has found the place of its row free. */
  datatype Saver = Idle | Checked(row: Item, itemId: Option<nat>)

  datatype System = System(items: Table, next: nat, savers: seq<Saver>)

  /** `Check` is a save up to the verdict that the place is free, `Write` its write, `Delete` a deletion. */
  datatype Move = Check(p: nat, live: seq<string>, row: Item, itemId: Option<nat>) | Write(p: nat) | Delete(id: nat)

  /** The table and the next id after a write. */
  function Put(y: System, row: Item, itemId: Option<nat>): System {
    var inserted := itemId.None? && !NoWrite(y.items, row, itemId);
    y.(items := Written(y.items, row, itemId, y.next), next := if inserted then y.next + 1 else y.next)
  }

  /** One step; None when not enabled. An item id given to a save was handed out before; 0 counts as none. */
  ghost function Step(y: System, m: Move): Option<System> {
    match m
    case Check(p, live, row, itemId) =>
      if p < |y.savers| && y.savers[p] == Idle && Sane(row) && FreeFor(y.items, live, row, itemId) &&
         (itemId.Some? ==> 0 < itemId.value < y.next)
      then Some(y.(savers := y.savers[p := Checked(row, itemId)])) else None
    case Write(p) =>
      if p < |y.savers| && y.savers[p].Checked?
      then Some(Put(y, y.savers[p].row, y.savers[p].itemId).(savers := y.savers[p := Idle])) else None
    case Delete(id) => Some(y.(items := y.items - {id}))
  }

  ghost function Run(y: System, moves: seq<Move>): Option<System> {
    if moves == [] then Some(y) else
    var before :- Run(y, moves[..|moves| - 1]);
    Step(before, moves[|moves| - 1])
  }

  ghost predicate Valid(y: System) {
    && AllSane(y.items) && (forall id :: id in y.items ==> id < y.next)
    && forall p :: 0 <= p < |y.savers| && y.savers[p].Checked? ==>
         Sane(y.savers[p].row) && (y.savers[p].itemId.Some? ==> y.savers[p].itemId.value < y.next)
  }

  function Init(n: nat): System { System(map[], 1, seq(n, _ => Idle)) }

  lemma ValidStep(y: System, m: Move)
    requires Valid(y) && Step(y, m).Some?
    ensures Valid(Step(y, m).value)
  {
    hide FreeFor, Clashes, Sane;
  }

  lemma {:induction false} ValidRun(y: System, moves: seq<Move>)
    requires Valid(y) && Run(y, moves).Some?
    ensures Valid(Run(y, moves).value)
  {
    if moves != [] {
      hide Step, Valid;
      ValidRun(y, moves[..|moves| - 1]);
      ValidStep(Run(y, moves[..|moves| - 1]).value, moves[|moves| - 1]);
    }
  }

  // ---- The danger ----

  predicate SameStart(a: Item, b: Item) { a.rack == b.rack && a.unit == b.unit }

  /** Two rows overlap and the unique key does not see it. */
  predicate Conflict(a: Item, b: Item) { !Apart(a, b) && !SameStart(a, b) }

  /** The row to update, if there is one, is still there. */
  predicate Alive(y: System, s: Saver) { s.Checked? && (s.itemId.Some? ==> s.itemId.value in y.items) }

  /** A checked row overlaps a stored one, which came after the check. */
  predicate HitsStored(y: System, p: int, id: nat) {
    && 0 <= p < |y.savers| && Alive(y, y.savers[p]) && id in y.items && Some(id) != y.savers[p].itemId
    && Conflict(y.savers[p].row, y.items[id])
  }

  /** Two checked rows overlap, and they are not meant for the same item. */
  predicate PairHits(y: System, p: int, q: int) {
    && 0 <= p < |y.savers| && 0 <= q < |y.savers| && p != q && Alive(y, y.savers[p]) && Alive(y, y.savers[q])
    && (y.savers[p].itemId.Some? ==> y.savers[p].itemId != y.savers[q].itemId)
    && Conflict(y.savers[p].row, y.savers[q].row)
  }

  /** Each of two updates finds the other's item at its own start, and the unique key refuses both. */
  predicate Locked(y: System, s: Saver, t: Saver)
    requires Alive(y, s) && Alive(y, t)
  {
    && s.itemId.Some? && t.itemId.Some?
    && SameStart(y.items[s.itemId.value], t.row) && SameStart(y.items[t.itemId.value], s.row)
  }

  /** ... unless a third checked update takes one of the two items elsewhere first. */
  predicate Frees(y: System, s: Saver, t: Saver, r: int) {
    && 0 <= r < |y.savers| && s.Checked? && t.Checked? && y.savers[r].Checked? && y.savers[r].itemId.Some?
    && (y.savers[r].itemId == s.itemId || y.savers[r].itemId == t.itemId)
    && !SameStart(y.savers[r].row, s.row) && !SameStart(y.savers[r].row, t.row)
  }

  predicate PairComes(y: System, p: int, q: int) {
    && PairHits(y, p, q)
    && (Locked(y, y.savers[p], y.savers[q]) ==>
          exists r :: 0 <= r < |y.savers| && Frees(y, y.savers[p], y.savers[q], r))
  }

  ghost predicate Danger(y: System) { (exists p, id :: HitsStored(y, p, id)) || (exists p, q :: PairComes(y, p, q)) }

  predicate Quiet(moves: seq<Move>) { forall k :: 0 <= k < |moves| ==> !moves[k].Check? }

  // ---- Without danger nothing happens ----

  lemma ApartSymmetric(a: Item, b: Item)
    ensures Apart(a, b) <==> Apart(b, a)
    ensures Conflict(a, b) <==> Conflict(b, a)
  {
  }

  /** A write that goes through puts its row beside rows that do not overlap it. */
  lemma WriteKeepsDisjoint(y: System, p: nat)
    requires Valid(y) && Disjoint(y.items) && !Danger(y) && Step(y, Write(p)).Some?
    ensures Disjoint(Step(y, Write(p)).value.items)
  {
    hide Sane, Apart;
    var s := y.savers[p];
    if !NoWrite(y.items, s.row, s.itemId) {
      forall id | id in y.items && Some(id) != s.itemId ensures Apart(y.items[id], s.row) && Apart(s.row, y.items[id]) {
        assert !HitsStored(y, p, id);
        assert !SameStart(y.items[id], s.row);
        ApartSymmetric(s.row, y.items[id]);
      }
    }
  }

  lemma DeleteKeepsQuiet(y: System, id: nat)
    requires !Danger(y)
    ensures !Danger(Step(y, Delete(id)).value)
  {
    hide Apart;
    var z := Step(y, Delete(id)).value;
    forall p, i ensures !HitsStored(z, p, i) {
      assert !HitsStored(y, p, i);
    }
    forall p, q ensures !PairComes(z, p, q) {
      PairCameBefore(y, id, p, q);
      assert !PairComes(y, p, q);
    }
  }

  lemma PairCameBefore(y: System, id: nat, p: int, q: int)
    ensures PairComes(Step(y, Delete(id)).value, p, q) ==> PairComes(y, p, q)
  {
    hide Apart;
    var z := Step(y, Delete(id)).value;
    if PairComes(z, p, q) && Locked(z, z.savers[p], z.savers[q]) {
      var r :| 0 <= r < |z.savers| && Frees(z, z.savers[p], z.savers[q], r);
      assert Frees(y, y.savers[p], y.savers[q], r);
    }
  }

  /** The write of `p` makes no other pair dangerous: it cannot undo a lock that no checked row frees. */
  lemma WriteKeepsPairs(y: System, p: nat, q: int, r: int)
    requires Valid(y) && !Danger(y) && Step(y, Write(p)).Some?
    ensures !PairComes(Step(y, Write(p)).value, q, r)
  {
    hide Apart, Sane;
    var z := Step(y, Write(p)).value;
    if PairHits(z, q, r) {
      var s, a, b := y.savers[p], y.savers[q], y.savers[r];
      assert q != p && r != p && z.savers[q] == a && z.savers[r] == b;
      assert PairHits(y, q, r) && !PairComes(y, q, r);
      assert Locked(y, a, b);
      assert !Frees(y, a, b, p);
      if !NoWrite(y.items, s.row, s.itemId) {
        StaysLocked(y, p, a, b);
      }
      assert Locked(z, a, b);
      forall k | 0 <= k < |z.savers| ensures !Frees(z, a, b, k) {
        assert !Frees(y, a, b, k);
      }
    }
  }

  lemma StaysLocked(y: System, p: nat, a: Saver, b: Saver)
    requires Valid(y) && p < |y.savers| && y.savers[p].Checked? && Alive(y, a) && Alive(y, b) && Locked(y, a, b)
    requires !NoWrite(y.items, y.savers[p].row, y.savers[p].itemId) && !Frees(y, a, b, p) && a.itemId != b.itemId
    ensures
      var z := Put(y, y.savers[p].row, y.savers[p].itemId);
      Alive(z, a) && Alive(z, b) && Locked(z, a, b)
  {
    hide Sane;
    var s := y.savers[p];
    assert !Clashes(y.items, s.row, s.itemId);
    if s.itemId == a.itemId {
      assert !SameStart(y.items[b.itemId.value], s.row);
    } else if s.itemId == b.itemId {
      assert !SameStart(y.items[a.itemId.value], s.row);
    }
  }

  /** A checked row that the written one would overlap made a pair with it before. */
  lemma WriteKeepsStored(y: System, p: nat, q: int, id: nat)
    requires Valid(y) && !Danger(y) && Step(y, Write(p)).Some?
    ensures !HitsStored(Step(y, Write(p)).value, q, id)
  {
    hide Apart, Sane;
    if HitsStored(Step(y, Write(p)).value, q, id) {
      assert !HitsStored(y, q, id);
      HitMeansPair(y, p, q, id);
    }
  }

  lemma HitMeansPair(y: System, p: nat, q: int, id: nat)
    requires Valid(y) && Step(y, Write(p)).Some?
    requires HitsStored(Step(y, Write(p)).value, q, id) && !HitsStored(y, q, id)
    ensures PairComes(y, p, q)
  {
    hide Apart, Sane;
    var z, s, t := Step(y, Write(p)).value, y.savers[p], y.savers[q];
    assert !NoWrite(y.items, s.row, s.itemId);
    assert z.items[id] == s.row && (s.itemId.Some? ==> s.itemId.value == id);
    ApartSymmetric(s.row, t.row);
    assert PairHits(y, p, q);
    assert !Clashes(y.items, s.row, s.itemId);
    assert t.itemId.Some? ==> !SameStart(y.items[t.itemId.value], s.row);
  }

  lemma {:induction false} NoDangerNoOverlap(y: System, moves: seq<Move>)
    requires Valid(y) && Disjoint(y.items) && !Danger(y) && Quiet(moves) && Run(y, moves).Some?
    ensures Valid(Run(y, moves).value) && Disjoint(Run(y, moves).value.items) && !Danger(Run(y, moves).value)
  {
    if moves != [] {
      hide Step, Valid, Disjoint, Danger;
      var init, m := moves[..|moves| - 1], moves[|moves| - 1];
      NoDangerNoOverlap(y, init);
      ValidStep(Run(y, init).value, m);
      QuietStep(Run(y, init).value, m);
    }
  }

  lemma QuietStep(y: System, m: Move)
    requires Valid(y) && Disjoint(y.items) && !Danger(y) && !m.Check? && Step(y, m).Some?
    ensures Disjoint(Step(y, m).value.items) && !Danger(Step(y, m).value)
  {
    match m
    case Delete(id) => DeleteKeepsQuiet(y, id);
    case Write(p) =>
      hide Valid, HitsStored, PairComes, Step;
      WriteKeepsDisjoint(y, p);
      forall q, id ensures !HitsStored(Step(y, m).value, q, id) { WriteKeepsStored(y, p, q, id); }
      forall q, r ensures !PairComes(Step(y, m).value, q, r) { WriteKeepsPairs(y, p, q, r); }
  }

  // ---- Danger comes true ----

  lemma Extend(start: System, moves: seq<Move>, y: System, m: Move) returns (moves': seq<Move>, y': System)
    requires Run(start, moves) == Some(y) && Quiet(moves) && !m.Check? && Step(y, m).Some?
    ensures Run(start, moves') == Some(y') && Quiet(moves') && y' == Step(y, m).value
  {
    hide Step;
    moves', y' := moves + [m], Step(y, m).value;
    assert moves'[..|moves|] == moves;
  }

  /** Deleting every item but a few. */
  lemma {:induction false} DeleteOthers(start: System, moves: seq<Move>, y: System, keep: set<nat>)
    returns (moves': seq<Move>, y': System)
    requires Run(start, moves) == Some(y) && Quiet(moves) && Valid(y)
    ensures Run(start, moves') == Some(y') && Quiet(moves') && Valid(y')
    ensures y'.savers == y.savers && y'.next == y.next
    ensures forall id :: id in y'.items <==> id in y.items && id in keep
    ensures forall id :: id in y'.items ==> y'.items[id] == y.items[id]
    decreases y.items.Keys - keep
  {
    hide Run, Quiet;
    if id :| id in y.items && id !in keep {
      moves', y' := Extend(start, moves, y, Delete(id));
      assert y'.items.Keys - keep < y.items.Keys - keep by {
        assert id in y.items.Keys - keep && id !in y'.items.Keys - keep;
      }
      moves', y' := DeleteOthers(start, moves', y', keep);
    } else {
      moves', y' := moves, y;
    }
  }

  function Target(s: Saver): set<nat>
    requires s.Checked?
  {
    if s.itemId.Some? then {s.itemId.value} else {}
  }

  lemma OverlapsStored(y: System, p: nat, id: nat) returns (moves: seq<Move>)
    requires Valid(y) && HitsStored(y, p, id)
    ensures Quiet(moves) && Run(y, moves).Some? && !Disjoint(Run(y, moves).value.items)
  {
    hide Run, Apart, Sane;
    NoMoves(y);
    var s := y.savers[p];
    var z;
    moves, z := DeleteOthers(y, [], y, {id} + Target(s));
    assert !Clashes(z.items, s.row, s.itemId);
    var before := z;
    moves, z := Extend(y, moves, z, Write(p));
    var mine := if s.itemId.Some? then s.itemId.value else before.next;
    assert mine in z.items && id in z.items && mine != id && z.items[mine] == s.row && z.items[id] == y.items[id];
  }

  lemma NoMoves(y: System)
    ensures Run(y, []) == Some(y) && Quiet([])
  {
  }

  /** With nothing else in the table: `q` writes where no item but its own starts, and then `p`. */
  lemma OverlapsPair(start: System, moves: seq<Move>, y: System, p: nat, q: nat) returns (moves': seq<Move>)
    requires Run(start, moves) == Some(y) && Quiet(moves) && Valid(y) && PairHits(y, p, q)
    requires y.items.Keys <= Target(y.savers[p]) + Target(y.savers[q])
    requires y.savers[p].itemId.Some? ==> !SameStart(y.items[y.savers[p].itemId.value], y.savers[q].row)
    ensures Quiet(moves') && Run(start, moves').Some? && !Disjoint(Run(start, moves').value.items)
  {
    hide Run, Apart, Sane, Quiet;
    var s, t := y.savers[p], y.savers[q];
    assert !Clashes(y.items, t.row, t.itemId);
    var z;
    moves', z := Extend(start, moves, y, Write(q));
    var theirs := if t.itemId.Some? then t.itemId.value else y.next;
    assert z.items[theirs] == t.row && z.savers[p] == s;
    assert forall id :: id in z.items && Some(id) != s.itemId ==> id == theirs;
    assert !Clashes(z.items, s.row, s.itemId);
    var mine := if s.itemId.Some? then s.itemId.value else z.next;
    moves', z := Extend(start, moves', z, Write(p));
    assert mine != theirs && z.items[mine] == s.row && z.items[theirs] == t.row;
  }

  lemma PairSymmetric(y: System, p: int, q: int)
    requires PairHits(y, p, q)
    ensures PairHits(y, q, p)
  {
    ApartSymmetric(y.savers[p].row, y.savers[q].row);
  }

  lemma OverlapsUnlocked(start: System, moves: seq<Move>, y: System, p: nat, q: nat) returns (moves': seq<Move>)
    requires Run(start, moves) == Some(y) && Quiet(moves) && Valid(y) && PairHits(y, p, q)
    requires y.items.Keys <= Target(y.savers[p]) + Target(y.savers[q]) && !Locked(y, y.savers[p], y.savers[q])
    ensures Quiet(moves') && Run(start, moves').Some? && !Disjoint(Run(start, moves').value.items)
  {
    hide Run, Apart, Sane, Quiet;
    PairSymmetric(y, p, q);
    var s := y.savers[p];
    if s.itemId.Some? && SameStart(y.items[s.itemId.value], y.savers[q].row) {
      moves' := OverlapsPair(start, moves, y, q, p);
    } else {
      moves' := OverlapsPair(start, moves, y, p, q);
    }
  }

  /** The third update moves the item of one of the two away; then they are no longer locked. */
  lemma Unlocks(start: System, moves: seq<Move>, y: System, p: nat, q: nat, r: nat) returns (moves': seq<Move>, z: System)
    requires Run(start, moves) == Some(y) && Quiet(moves) && Valid(y) && PairHits(y, p, q)
    requires y.items.Keys <= Target(y.savers[p]) + Target(y.savers[q]) && Locked(y, y.savers[p], y.savers[q])
    requires Frees(y, y.savers[p], y.savers[q], r)
    ensures Run(start, moves') == Some(z) && Quiet(moves') && Valid(z) && PairHits(z, p, q)
    ensures z.items.Keys <= Target(z.savers[p]) + Target(z.savers[q]) && !Locked(z, z.savers[p], z.savers[q])
  {
    hide Run, Apart, Sane, Quiet;
    var s, t, u := y.savers[p], y.savers[q], y.savers[r];
    assert r != p && r != q;
    assert !Clashes(y.items, u.row, u.itemId);
    moves', z := Extend(start, moves, y, Write(r));
    ValidStep(y, Write(r));
    assert z.savers[p] == s && z.savers[q] == t && z.items == y.items[u.itemId.value := u.row];
  }

  lemma DangerComesTrue(y: System) returns (moves: seq<Move>)
    requires Valid(y) && Danger(y)
    ensures Quiet(moves) && Run(y, moves).Some? && !Disjoint(Run(y, moves).value.items)
  {
    hide Run, Apart, Sane, Quiet, Valid;
    if p, id :| HitsStored(y, p, id) {
      moves := OverlapsStored(y, p, id);
    } else {
      var p, q :| PairComes(y, p, q);
      NoMoves(y);
      var s, t := y.savers[p], y.savers[q];
      var z;
      moves, z := DeleteOthers(y, [], y, Target(s) + Target(t));
      assert PairHits(z, p, q);
      if Locked(z, s, t) {
        assert Locked(y, s, t);
        var r :| 0 <= r < |y.savers| && Frees(y, s, t, r);
        assert Frees(z, s, t, r);
        moves, z := Unlocks(y, moves, z, p, q, r);
      }
      moves := OverlapsUnlocked(y, moves, z, p, q);
    }
  }

  /** From a table without overlaps, whatever saves have passed their check, an overlap can come about without a
      further check exactly when a checked row overlaps a stored one, or two checked rows for different items
      overlap, that do not start at the same unit; two updates that refuse each other do not count, unless a
      third moves one of their items. */
  lemma OverlapComesIff(y: System)
    requires Valid(y) && Disjoint(y.items)
    ensures (exists moves :: Quiet(moves) && Run(y, moves).Some? && !Disjoint(Run(y, moves).value.items)) <==> Danger(y)
  {
    hide Run, Valid, Disjoint, Danger, Quiet;
    if Danger(y) {
      var moves := DangerComesTrue(y);
    } else {
      forall moves | Quiet(moves) && Run(y, moves).Some? ensures Disjoint(Run(y, moves).value.items) {
        NoDangerNoOverlap(y, moves);
      }
    }
  }

  // ---- The smallest cases ----

  /** Two checks on an empty table are enough for danger, although nothing overlaps yet. */
  lemma TwoChecksAreEnough() returns (moves: seq<Move>, y: System)
    ensures Run(Init(2), moves) == Some(y) && Valid(y) && Disjoint(y.items) && Danger(y)
  {
    hide Valid;
    var items, a, b := InterleavedSavesOverlap();
    assert items == map[];
    var first, second := Check(0, [], a, None), Check(1, [], b, None);
    var x := System(map[], 1, [Checked(a, None), Idle]);
    y := System(map[], 1, [Checked(a, None), Checked(b, None)]);
    assert Init(2).savers == [Idle, Idle];
    moves := [first, second];
    assert moves[..1] == [first] && [first][..0] == [];
    assert Run(Init(2), []) == Some(Init(2));
    assert Init(2).savers[0 := Checked(a, None)] == x.savers;
    assert Run(Init(2), [first]) == Some(x);
    assert x.savers[1 := Checked(b, None)] == y.savers;
    EmptyValid(2);
    ValidRun(Init(2), moves);
    assert PairComes(y, 0, 1);
  }

  lemma EmptyValid(n: nat)
    ensures Valid(Init(n))
  {
  }

  /** A save whose write follows its check at once is never dangerous. */
  lemma UninterruptedSaveKeeps(y: System, p: nat, live: seq<string>, row: Item, itemId: Option<nat>)
    requires Valid(y) && Disjoint(y.items) && Step(y, Check(p, live, row, itemId)).Some?
    ensures Disjoint(Step(Step(y, Check(p, live, row, itemId)).value, Write(p)).value.items)
  {
    hide Sane, FreeFor, Apart;
    FreeIsApart(y.items, live, row, itemId);
  }

  /** Two new rows that found their places free in the same table: after both writes the table is free of
      overlaps exactly when they lie apart, or start at the same unit, where the key refuses the second. */
  lemma TwoSavesIff(items: Table, live: seq<string>, a: Item, b: Item, id: nat)
    requires AllSane(items) && Disjoint(items) && id !in items && id + 1 !in items && Sane(a) && Sane(b)
    requires FreeFor(items, live, a, None) && FreeFor(items, live, b, None)
    ensures Disjoint(Written(Written(items, a, None, id), b, None, id + 1)) <==> Apart(a, b) || SameStart(a, b)
  {
    hide FreeFor, Sane;
    FreeIsApart(items, live, a, None);
    FreeIsApart(items, live, b, None);
    StartTaken(items, a);
    StartTaken(items, b);
    var first := Written(items, a, None, id);
    assert first == items[id := a];
    WriteKeepsIff(items, a, None, id);
    assert first[id] == a;
    assert Clashes(first, b, None) <==> SameStart(a, b);
    WriteKeepsIff(first, b, None, id + 1);
  }

  lemma StartTaken(items: Table, a: Item)
    requires AllSane(items) && Sane(a) && forall id :: id in items ==> Apart(items[id], a)
    ensures !Clashes(items, a, None)
  {
  }
}
