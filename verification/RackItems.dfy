/** The hand-entered rack items of core/rackitems.py: a save looks up which units are free, then writes; the
    two are separate steps. */
module RackItems {
  import opened Wrappers
  import opened Text
  import Rack

  datatype Item = Item(rack: string, unit: int, height: int)

  type Table = map<nat, Item>

  datatype SaveError = BadInput | Conflict(units: seq<int>)

  const MAX_NAME: int := 12

  // ---- Input ----

  /** The row to store, or None where the input is refused. */
  function Norm(rack: string, unit: int, height: int): (r: Option<Item>)
    ensures r.Some? ==> Sane(r.value)
  {
    var name := Upper(Strip(rack));
    var h := if height < 1 then 1 else height;
    if name == "" || |name| > MAX_NAME || unit < 1 || unit > Rack.MAX_HEIGHT then None
    else if unit + h - 1 > Rack.MAX_HEIGHT then None
    else Some(Item(name, unit, h))
  }

  predicate Sane(i: Item) {
    1 <= i.unit && 1 <= i.height && i.unit + i.height - 1 <= Rack.MAX_HEIGHT && 0 < |i.rack| <= MAX_NAME
  }

  // ---- What is taken ----

  predicate Covers(i: Item, rack: string, u: int) { i.rack == rack && i.unit <= u < i.unit + i.height }

  predicate DeviceCovers(location: string, rack: string, u: int) {
    var p := Rack.ParseRack(location);
    p.Some? && p.value.rack == rack && p.value.unit <= u <= p.value.unitEnd
  }

  /** A registered device or an item other than `exclude` occupies the unit. */
  ghost predicate TakenAt(items: Table, live: seq<string>, rack: string, exclude: Option<nat>, u: int) {
    || (exists d :: d in live && DeviceCovers(d, rack, u))
    || (exists id :: id in items && Some(id) != exclude && Covers(items[id], rack, u))
  }

  method AddRange(taken: set<int>, first: int, end: int) returns (more: set<int>)
    ensures forall u :: u in more <==> u in taken || first <= u < end
  {
    more := taken;
    var u := first;
    while u < end
      invariant first <= u && (u <= end || u == first)
      invariant forall x :: x in more <==> x in taken || first <= x < u
    {
      more := more + {u};
      u := u + 1;
    }
  }

  method UnitsOfDevices(live: seq<string>, rack: string) returns (taken: set<int>)
    ensures forall u :: u in taken <==> exists d :: d in live && DeviceCovers(d, rack, u)
  {
    hide Rack.ParseRack;
    taken := {};
    for k := 0 to |live|
      invariant forall u :: u in taken <==> exists d :: d in live[..k] && DeviceCovers(d, rack, u)
    {
      assert live[..k + 1] == live[..k] + [live[k]];
      var p := Rack.ParseRack(live[k]);
      if p.Some? && p.value.rack == rack {
        taken := AddRange(taken, p.value.unit, p.value.unitEnd + 1);
      }
      assert live[k] in live[..k + 1];
    }
    assert live[..|live|] == live;
  }

  method OccupiedUnits(items: Table, live: seq<string>, rack: string, exclude: Option<nat>) returns (taken: set<int>)
    ensures forall u :: u in taken <==> TakenAt(items, live, rack, exclude, u)
  {
    hide DeviceCovers;
    var devices := UnitsOfDevices(live, rack);
    taken := devices;
    var todo := items.Keys;
    while todo != {}
      invariant todo <= items.Keys
      invariant forall u :: u in taken <==>
        u in devices || exists id :: id in items && id !in todo && Some(id) != exclude && Covers(items[id], rack, u)
      decreases todo
    {
      var id :| id in todo;
      todo := todo - {id};
      var it := items[id];
      if it.rack == rack && Some(id) != exclude {
        taken := AddRange(taken, it.unit, it.unit + it.height);
      }
    }
  }

  // ---- The table ----

  predicate Apart(a: Item, b: Item) {
    a.rack != b.rack || a.unit + a.height <= b.unit || b.unit + b.height <= a.unit
  }

  ghost predicate Disjoint(items: Table) {
    forall x, y :: x in items && y in items && x != y ==> Apart(items[x], items[y])
  }

  ghost predicate AllSane(items: Table) { forall id :: id in items ==> Sane(items[id]) }

  /** `row` meets no device and no item but the one it replaces. */
  ghost predicate FreeFor(items: Table, live: seq<string>, row: Item, exclude: Option<nat>) {
    forall u :: row.unit <= u < row.unit + row.height ==> !TakenAt(items, live, row.rack, exclude, u)
  }

  /** `UNIQUE(rack, unit)`: another row starts at the same place. */
  predicate Clashes(items: Table, row: Item, itemId: Option<nat>) {
    exists id :: id in items && Some(id) != itemId && items[id].rack == row.rack && items[id].unit == row.unit
  }

  /** The write changes nothing: the row to update is gone, or the database refuses the new one. */
  predicate NoWrite(items: Table, row: Item, itemId: Option<nat>) {
    (itemId.Some? && itemId.value !in items) || Clashes(items, row, itemId)
  }

  function Written(items: Table, row: Item, itemId: Option<nat>, newId: nat): Table {
    if NoWrite(items, row, itemId) then items
    else if itemId.Some? then items[itemId.value := row] else items[newId := row]
  }

  /** Sharing no unit is lying apart. */
  lemma ApartIff(a: Item, b: Item)
    requires Sane(a) && Sane(b)
    ensures Apart(a, b) <==> forall u :: !(Covers(a, a.rack, u) && Covers(b, a.rack, u))
  {
    if !Apart(a, b) {
      var u := if a.unit < b.unit then b.unit else a.unit;
      assert Covers(a, a.rack, u) && Covers(b, a.rack, u);
    }
  }

  /** A registered device covers the occupied units of its position. */
  lemma DeviceCoversIff(location: string, rack: string, u: int)
    ensures DeviceCovers(location, rack, u) <==>
      var p := Rack.ParseRack(location);
      p.Some? && p.value.rack == rack && u in Rack.OccupiedUnits(p)
  {
    hide Rack.ParseRack;
    if Rack.ParseRack(location).Some? { Rack.ParsedPosition(location); }
  }

  /** An item never stands in its own way: among items that do not overlap, its own place is free for it. */
  lemma OwnPlaceIsFree(items: Table, id: nat)
    requires AllSane(items) && Disjoint(items) && id in items
    ensures FreeFor(items, [], items[id], Some(id))
  {
    forall other, u | other in items && other != id && items[id].unit <= u < items[id].unit + items[id].height
      ensures !Covers(items[other], items[id].rack, u)
    {
      ApartIff(items[id], items[other]);
      assert Covers(items[id], items[id].rack, u);
    }
  }

  lemma FreeIsApart(items: Table, live: seq<string>, row: Item, exclude: Option<nat>)
    requires AllSane(items) && Sane(row) && FreeFor(items, live, row, exclude)
    ensures forall id :: id in items && Some(id) != exclude ==> Apart(items[id], row) && Apart(row, items[id])
  {
    forall id | id in items && Some(id) != exclude ensures Apart(row, items[id]) {
      ApartIff(row, items[id]);
      forall u | Covers(row, row.rack, u) ensures !Covers(items[id], row.rack, u) {
        assert !TakenAt(items, live, row.rack, exclude, u);
      }
    }
  }

  class RackTable {
    var items: Table
    var next: nat

    ghost predicate Valid()
      reads this
    {
      0 < next && AllSane(items) && Disjoint(items) && forall id :: id in items ==> 0 < id < next
    }

    constructor ()
      ensures Valid() && items == map[]
    {
      items, next := map[], 1;
    }

    /** Looking up and writing with nothing in between. An item id of 0 counts as none when the row is
        written. */
    method SaveItem(live: seq<string>, rack: string, unit: int, height: int, itemId: Option<nat>)
      returns (r: Result<nat, SaveError>)
      requires Valid()
      modifies this
      ensures Valid()
      ensures var row := Norm(rack, unit, height);
        if row.None? then r == Failure(BadInput)
        else r.Success? <==> FreeFor(old(items), live, row.value, itemId)
      ensures r.Failure? ==> items == old(items) && next == old(next)
      ensures r.Success? ==>
        var id := if itemId.Some? && itemId.value != 0 then itemId else None;
        && items == Written(old(items), Norm(rack, unit, height).value, id, old(next))
        && r.value == (if id.Some? then id.value else old(next))
      ensures r.Failure? && r.error.Conflict? ==>
        forall u :: u in r.error.units <==>
          Norm(rack, unit, height).value.unit <= u < Norm(rack, unit, height).value.unit + Norm(rack, unit, height).value.height
          && TakenAt(old(items), live, Norm(rack, unit, height).value.rack, itemId, u)
    {
      hide TakenAt, Norm;
      var norm := Norm(rack, unit, height);
      if norm.None? {
        return Failure(BadInput);
      }
      var row := norm.value;
      var taken := OccupiedUnits(items, live, row.rack, itemId);
      var hit: seq<int> := [];
      for u := row.unit to row.unit + row.height
        invariant forall x :: x in hit <==> row.unit <= x < u && x in taken
      {
        if u in taken { hit := hit + [u]; }
      }
      if hit != [] {
        assert hit[0] in hit && TakenAt(items, live, row.rack, itemId, hit[0]);
        return Failure(Conflict(hit));
      }
      assert FreeFor(items, live, row, itemId);
      if itemId.Some? && itemId.value != 0 {
        FreeIsApart(items, live, row, itemId);
        if itemId.value in items {
          items := items[itemId.value := row];
        }
        return Success(itemId.value);
      }
      FreeIsApart(items, live, row, itemId);
      items := items[next := row];
      r := Success(next);
      next := next + 1;
    }

    method DeleteItem(itemId: nat) returns (ok: bool)
      requires Valid()
      modifies this
      ensures Valid() && ok == (itemId in old(items)) && items == old(items) - {itemId} && next == old(next)
    {
      ok := itemId in items;
      items := items - {itemId};
    }
  }

  // ---- Two saves at once ----

  /** A write keeps the table free of overlaps exactly when, at that moment, its row is apart from every other,
      or it changes nothing. The unique key refuses only rows that start at the same unit. */
  lemma WriteKeepsIff(items: Table, row: Item, itemId: Option<nat>, newId: nat)
    requires Disjoint(items) && newId !in items
    ensures Disjoint(Written(items, row, itemId, newId)) <==>
      NoWrite(items, row, itemId) || forall id :: id in items && Some(id) != itemId ==> Apart(items[id], row)
  {
    var after := Written(items, row, itemId, newId);
    if !NoWrite(items, row, itemId) {
      var mine := if itemId.Some? then itemId.value else newId;
      if Disjoint(after) {
        forall id | id in items && Some(id) != itemId ensures Apart(items[id], row) {
          assert id in after && after[id] == items[id] && after[mine] == row;
        }
      }
    }
  }

  /** Free places for two rows, looked up before either is written, do not make the pair free: both saves pass
      the check and the table ends with an overlap. */
  lemma InterleavedSavesOverlap() returns (items: Table, a: Item, b: Item)
    ensures items == map[] && Disjoint(items) && Sane(a) && Sane(b)
    ensures a == Item("A1", 10, 2) && b == Item("A1", 11, 1)
    ensures FreeFor(items, [], a, None) && FreeFor(items, [], b, None)
    ensures !Disjoint(Written(Written(items, a, None, 1), b, None, 2))
  {
    items, a, b := map[], Item("A1", 10, 2), Item("A1", 11, 1);
    var after := Written(Written(items, a, None, 1), b, None, 2);
    assert 1 in after && 2 in after && !Apart(after[1], after[2]);
  }

  // ---- What input is accepted ----

  /** The row that is stored for some input: the name without blanks around it and in capitals, of twelve characters at
      most, and at least one unit, all of them among the 42 of a rack. */
  lemma NormIff(rack: string, unit: int, height: int)
    ensures
      var units := if height < 1 then 1 else height;
      Norm(rack, unit, height).Some? <==> Strip(rack) != "" && |Strip(rack)| <= 12 && 1 <= unit && unit + units <= 43
    ensures Norm(rack, unit, height).Some? ==>
      var i := Norm(rack, unit, height).value;
      && SameLetters(i.rack, Strip(rack)) && (forall k :: 0 <= k < |i.rack| ==> !('a' <= i.rack[k] <= 'z'))
      && i.unit == unit && i.height == if height < 1 then 1 else height
  {
    hide Strip, Upper, SameLetters;
    var name := Strip(rack);
    CaseFolds(name, name);
    CaseFolds(Upper(name), name);
    UpperTwice(name);
  }

  lemma UpperTwice(s: string)
    ensures Upper(Upper(s)) == Upper(s) && |Upper(s)| == |s|
  {
  }
}
