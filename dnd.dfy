/**
 * The drag-and-drop coordinator of src/components/DnDContextProvider.tsx.
 *
 * The provider keeps one drag session in mutable refs (`isOver`, `start`,
 * `id`, the two pointer positions), a `isDragging` flag, and a registry of
 * droppable zones.  The registry is a JavaScript object; `for...in` visits its
 * keys in insertion order, and re-adding an existing key through an object
 * spread keeps the key where it was.  The model therefore keeps the registry
 * as an ordered sequence of (id, rectangle) entries with distinct ids.
 */
module DragDrop {
  import opened Common

  /** Zone ids come back from `for...in` as property keys, i.e. strings. */
  type ZoneId = string
  type ItemId = string

  datatype Point = Point(x: int, y: int)

  /** The bounding rectangle of a drop target, in integer screen coordinates. */
  datatype Rect = Rect(left: int, top: int, right: int, bottom: int)

  datatype Zone = Zone(id: ZoneId, rect: Rect)

  /** What `handleDragEnd` hands to its observer. */
  datatype DragEndEvent = DragEndEvent(over: Option<ZoneId>, from: Option<ZoneId>, item: Option<ItemId>)

  const Origin := Point(0, 0)

  /** The pointer is inside the rectangle, all four edges included. */
  predicate Inside(p: Point, r: Rect)
  {
    r.left <= p.x <= r.right && r.top <= p.y <= r.bottom
  }

  function Ids(zones: seq<Zone>): (ids: seq<ZoneId>)
    ensures |ids| == |zones|
    ensures forall i :: 0 <= i < |zones| ==> ids[i] == zones[i].id
  {
    seq(|zones|, i requires 0 <= i < |zones| => zones[i].id)
  }

  /** The registry holds at most one entry per id. */
  predicate UniqueIds(zones: seq<Zone>)
  {
    Distinct(Ids(zones))
  }

  // ---------------------------------------------------------------------
  // Collision lookup
  // ---------------------------------------------------------------------

  /**
   * The zone the pointer is over: the LAST zone in registry order whose
   * rectangle contains the pointer, or None when no zone does.
   */
  function Collision(zones: seq<Zone>, p: Point): Option<ZoneId>
  {
    if zones == [] then None
    else if Inside(p, zones[|zones| - 1].rect) then Some(zones[|zones| - 1].id)
    else Collision(zones[..|zones| - 1], p)
  }

  /** Zone `i` contains the pointer and no later zone does. */
  predicate LastMatch(zones: seq<Zone>, p: Point, i: int)
  {
    0 <= i < |zones| && Inside(p, zones[i].rect) &&
    forall j :: i < j < |zones| ==> !Inside(p, zones[j].rect)
  }

  /** Collision finds nothing exactly when no rectangle contains the pointer. */
  lemma {:induction false} CollisionNone(zones: seq<Zone>, p: Point)
    ensures Collision(zones, p) == None <==> forall i :: 0 <= i < |zones| ==> !Inside(p, zones[i].rect)
  {
    if zones != [] {
      var init := zones[..|zones| - 1];
      CollisionNone(init, p);
      assert forall i :: 0 <= i < |init| ==> init[i] == zones[i];
    }
  }

  /** Collision returns the id of the last zone, in registry order, that contains the pointer. */
  lemma {:induction false} CollisionIsLastMatch(zones: seq<Zone>, p: Point)
    ensures Collision(zones, p).Some? ==>
      exists i :: LastMatch(zones, p, i) && Collision(zones, p).value == zones[i].id
    ensures forall i :: LastMatch(zones, p, i) ==> Collision(zones, p) == Some(zones[i].id)
  {
    if zones != [] {
      var n := |zones| - 1;
      var init := zones[..n];
      CollisionIsLastMatch(init, p);
      assert forall i :: 0 <= i < n ==> init[i] == zones[i];
      if Inside(p, zones[n].rect) {
        assert LastMatch(zones, p, n);
        forall i | LastMatch(zones, p, i) ensures i == n {
        }
      } else {
        forall i | LastMatch(zones, p, i) ensures LastMatch(init, p, i) {
        }
        if Collision(init, p).Some? {
          var i :| LastMatch(init, p, i) && Collision(init, p).value == init[i].id;
          assert LastMatch(zones, p, i);
        }
      }
    }
  }

  /** When exactly one zone contains the pointer, that zone is the one found. */
  lemma OnlyZoneFound(zones: seq<Zone>, p: Point, k: int)
    requires 0 <= k < |zones| && Inside(p, zones[k].rect)
    requires forall j :: 0 <= j < |zones| && j != k ==> !Inside(p, zones[j].rect)
    ensures Collision(zones, p) == Some(zones[k].id)
  {
    assert LastMatch(zones, p, k);
    CollisionIsLastMatch(zones, p);
  }

  /** A zone found by the lookup is a registered zone whose rectangle contains the pointer. */
  lemma CollisionSound(zones: seq<Zone>, p: Point)
    requires Collision(zones, p).Some?
    ensures exists i :: 0 <= i < |zones| && zones[i].id == Collision(zones, p).value && Inside(p, zones[i].rect)
  {
    CollisionIsLastMatch(zones, p);
  }

  // ---------------------------------------------------------------------
  // The zone registry
  // ---------------------------------------------------------------------

  /** The position of the entry for `id`, if the registry has one. */
  function Find(zones: seq<Zone>, id: ZoneId): (r: Option<nat>)
    ensures r.Some? ==> r.value < |zones| && zones[r.value].id == id
    ensures r.None? ==> forall i :: 0 <= i < |zones| ==> zones[i].id != id
  {
    if zones == [] then None
    else if zones[0].id == id then Some(0)
    else match Find(zones[1..], id)
      case None => None
      case Some(k) => Some(k + 1)
  }

  /** The rectangle registered under `id`. */
  function Lookup(zones: seq<Zone>, id: ZoneId): Option<Rect>
  {
    match Find(zones, id)
    case None => None
    case Some(k) => Some(zones[k].rect)
  }

  /**
   * `{ ...registry, [id]: node }`: an existing key keeps its place and takes
   * the new value; a new key is appended at the end.
   */
  function Upsert(zones: seq<Zone>, id: ZoneId, rect: Rect): (r: seq<Zone>)
    ensures Ids(r) == if id in Ids(zones) then Ids(zones) else Ids(zones) + [id]
    ensures forall i :: 0 <= i < |zones| && zones[i].id != id ==> r[i] == zones[i]
    ensures Zone(id, rect) in r
    ensures UniqueIds(zones) ==> forall i :: 0 <= i < |r| && r[i].id == id ==> r[i].rect == rect
  {
    match Find(zones, id)
    case Some(k) =>
      assert id in Ids(zones) by { assert Ids(zones)[k] == id; }
      var r := zones[k := Zone(id, rect)];
      assert Ids(r) == Ids(zones);
      assert UniqueIds(zones) ==> forall i :: 0 <= i < |r| && r[i].id == id ==> i == k by {
        if UniqueIds(zones) {
          forall i | 0 <= i < |r| && r[i].id == id ensures i == k {
            assert Ids(zones)[i] == Ids(zones)[k];
          }
        }
      }
      r
    case None =>
      assert id !in Ids(zones);
      var r := zones + [Zone(id, rect)];
      assert Ids(r) == Ids(zones) + [id];
      r
  }

  /** `s` without any occurrence of `x`, the rest in order. */
  function Drop(s: seq<ZoneId>, x: ZoneId): seq<ZoneId>
  {
    if s == [] then [] else (if s[0] == x then [] else [s[0]]) + Drop(s[1..], x)
  }

  lemma {:induction false} DropAppend(a: seq<ZoneId>, b: seq<ZoneId>, x: ZoneId)
    ensures Drop(a + b, x) == Drop(a, x) + Drop(b, x)
  {
    if a != [] {
      DropAppend(a[1..], b, x);
      assert (a + b)[1..] == a[1..] + b;
    } else {
      assert a + b == b;
    }
  }

  lemma {:induction false} DropAbsent(s: seq<ZoneId>, x: ZoneId)
    requires x !in s
    ensures Drop(s, x) == s
  {
    if s != [] {
      DropAbsent(s[1..], x);
    }
  }

  /** In a sequence of distinct ids, the id at `k` occurs neither before nor after `k`. */
  lemma DistinctOutside(ids: seq<ZoneId>, k: nat)
    requires Distinct(ids) && k < |ids|
    ensures ids[k] !in ids[..k] && ids[k] !in ids[k + 1..]
  {
    forall i | 0 <= i < |ids| && i != k ensures ids[i] != ids[k] {
      if i < k { assert ids[i] != ids[k]; } else { assert ids[k] != ids[i]; }
    }
    var after := ids[k + 1..];
    forall j | 0 <= j < |after| ensures after[j] != ids[k] { assert after[j] == ids[k + 1 + j]; }
  }

  /** Filtering a distinct id out of the key order cuts out its one position. */
  lemma DropDistinct(ids: seq<ZoneId>, k: nat)
    requires Distinct(ids) && k < |ids|
    ensures Drop(ids, ids[k]) == ids[..k] + ids[k + 1..]
  {
    var id := ids[k];
    var before, after := ids[..k], ids[k + 1..];
    DistinctOutside(ids, k);
    assert ids == before + [id] + after;
    DropAppend(before + [id], after, id);
    DropAppend(before, [id], id);
    DropAbsent(before, id);
    DropAbsent(after, id);
  }

  /** Cutting out position `k` of a registry with unique ids drops exactly that id from the key order. */
  lemma DeleteAtIds(zones: seq<Zone>, k: nat)
    requires UniqueIds(zones) && k < |zones|
    ensures Ids(zones[..k] + zones[k + 1..]) == Drop(Ids(zones), zones[k].id)
  {
    var ids := Ids(zones);
    assert Ids(zones[..k] + zones[k + 1..]) == ids[..k] + ids[k + 1..];
    DropDistinct(ids, k);
  }

  /** Cutting out position `k` of a registry with unique ids keeps exactly the entries of other ids. */
  lemma DeleteAtMembers(zones: seq<Zone>, k: nat)
    requires UniqueIds(zones) && k < |zones|
    ensures forall z :: z in zones[..k] + zones[k + 1..] <==> z in zones && z.id != zones[k].id
  {
    var rest := zones[..k] + zones[k + 1..];
    assert forall i :: 0 <= i < |rest| ==> rest[i] == zones[if i < k then i else i + 1];
    forall z ensures z in rest <==> z in zones && z.id != zones[k].id {
      if z in zones && z.id != zones[k].id {
        var i :| 0 <= i < |zones| && zones[i] == z;
        assert rest[if i < k then i else i - 1] == z;
      }
      if z in rest {
        var i :| 0 <= i < |rest| && rest[i] == z;
        var j := if i < k then i else i + 1;
        assert Ids(zones)[j] != Ids(zones)[k];
      }
    }
  }

  /** `delete registry[id]`: the entry for `id` leaves, the others keep their order. */
  function Remove(zones: seq<Zone>, id: ZoneId): (r: seq<Zone>)
    ensures UniqueIds(zones) ==> Ids(r) == Drop(Ids(zones), id)
    ensures UniqueIds(zones) ==> forall z :: z in r <==> z in zones && z.id != id
  {
    match Find(zones, id)
    case Some(k) =>
      var r := zones[..k] + zones[k + 1..];
      if UniqueIds(zones) then DeleteAtIds(zones, k); DeleteAtMembers(zones, k); r else r
    case None =>
      assert id !in Ids(zones);
      DropAbsent(Ids(zones), id);
      zones
  }

  /** With unique ids, an id is found exactly at its own position. */
  lemma FindUnique(zones: seq<Zone>, id: ZoneId, k: int)
    requires UniqueIds(zones)
    requires 0 <= k < |zones| && zones[k].id == id
    ensures Find(zones, id) == Some(k)
  {
    var f := Find(zones, id);
    assert f.Some?;
    assert Ids(zones)[f.value] == Ids(zones)[k];
  }

  lemma UpsertKeepsUnique(zones: seq<Zone>, id: ZoneId, rect: Rect)
    requires UniqueIds(zones)
    ensures UniqueIds(Upsert(zones, id, rect))
  {
    var r := Upsert(zones, id, rect);
    forall i, j | 0 <= i < j < |r| ensures Ids(r)[i] != Ids(r)[j] {
      assert Ids(r)[i] == r[i].id && Ids(r)[j] == r[j].id;
      assert Ids(zones)[i] == zones[i].id;
      if j < |zones| { assert Ids(zones)[j] == zones[j].id; }
    }
  }

  /** Adding keeps one entry per id, maps `id` to the new rectangle and leaves every other id alone. */
  lemma UpsertSpec(zones: seq<Zone>, id: ZoneId, rect: Rect)
    requires UniqueIds(zones)
    ensures UniqueIds(Upsert(zones, id, rect))
    ensures Lookup(Upsert(zones, id, rect), id) == Some(rect)
    ensures forall other :: other != id ==> Lookup(Upsert(zones, id, rect), other) == Lookup(zones, other)
  {
    var r := Upsert(zones, id, rect);
    UpsertKeepsUnique(zones, id, rect);
    var k := if Find(zones, id).Some? then Find(zones, id).value else |zones|;
    assert r[k] == Zone(id, rect);
    FindUnique(r, id, k);
    forall other | other != id ensures Lookup(r, other) == Lookup(zones, other) {
      match Find(zones, other)
      case None =>
        assert Find(r, other).None?;
      case Some(m) =>
        FindUnique(r, other, m);
    }
  }

  /** The entries left after removing position `k`. */
  lemma RemoveAt(zones: seq<Zone>, id: ZoneId, k: nat)
    requires Find(zones, id) == Some(k)
    ensures |Remove(zones, id)| == |zones| - 1
    ensures forall i :: 0 <= i < |zones| - 1 ==> Remove(zones, id)[i] == zones[if i < k then i else i + 1]
  {
    var r := zones[..k] + zones[k + 1..];
    assert Remove(zones, id) == r;
    forall i | 0 <= i < |zones| - 1 ensures r[i] == zones[if i < k then i else i + 1] {
      if i < k { assert r[i] == zones[..k][i]; } else { assert r[i] == zones[k + 1..][i - k]; }
    }
  }

  lemma RemoveKeepsUnique(zones: seq<Zone>, id: ZoneId)
    requires UniqueIds(zones)
    ensures UniqueIds(Remove(zones, id))
    ensures forall i :: 0 <= i < |Remove(zones, id)| ==> Remove(zones, id)[i].id != id
  {
    var r := Remove(zones, id);
    match Find(zones, id)
    case None =>
    case Some(k) =>
      RemoveAt(zones, id, k);
      forall i, j | 0 <= i < j < |r| ensures Ids(r)[i] != Ids(r)[j] {
        var i', j' := (if i < k then i else i + 1), (if j < k then j else j + 1);
        assert Ids(zones)[i'] != Ids(zones)[j'];
      }
      forall i | 0 <= i < |r| ensures r[i].id != id {
        var i' := if i < k then i else i + 1;
        assert Ids(zones)[i'] != Ids(zones)[k];
      }
  }

  /** Removing forgets `id`, keeps one entry per id, and leaves every other id alone. */
  lemma RemoveSpec(zones: seq<Zone>, id: ZoneId)
    requires UniqueIds(zones)
    ensures UniqueIds(Remove(zones, id))
    ensures Lookup(Remove(zones, id), id) == None
    ensures forall other :: other != id ==> Lookup(Remove(zones, id), other) == Lookup(zones, other)
  {
    var r := Remove(zones, id);
    RemoveKeepsUnique(zones, id);
    assert Find(r, id).None?;
    match Find(zones, id)
    case None =>
    case Some(k) =>
      RemoveAt(zones, id, k);
      forall other | other != id ensures Lookup(r, other) == Lookup(zones, other) {
        match Find(zones, other)
        case None =>
          assert Find(r, other).None?;
        case Some(m) =>
          assert m != k;
          FindUnique(r, other, if m < k then m else m - 1);
      }
  }

  // ---------------------------------------------------------------------
  // The coordinator
  // ---------------------------------------------------------------------

  /** The provider's refs and registry; one drag session at a time. */
  class Coordinator {
    var isDragging: bool
    var isOver: Option<ZoneId>
    var start: Option<ZoneId>
    var initialPosition: Point
    var currentPosition: Point
    var item: Option<ItemId>
    /** The last pointer seen by `handleDragging`, sampled by the dragging timer. */
    var lastMove: Option<Point>
    /** `droppableRef.current !== null`: the registry object exists. */
    var hasRegistry: bool
    var zones: seq<Zone>

    ghost predicate Valid()
      reads this
    {
      UniqueIds(zones) && (!hasRegistry ==> zones == [])
    }

    /** The session values that `reset` establishes. */
    ghost predicate AtRest()
      reads this
    {
      !isDragging && isOver == None && start == None && item == None &&
      initialPosition == Origin && currentPosition == Origin
    }

    constructor ()
      ensures Valid() && AtRest()
      ensures lastMove == None && !hasRegistry && zones == []
    {
      isDragging := false;
      isOver, start, item := None, None, None;
      initialPosition, currentPosition := Origin, Origin;
      lastMove := None;
      hasRegistry := false;
      zones := [];
    }

    /** Back to the resting session; the registry and the last sampled move stay. */
    method Reset()
      requires Valid()
      modifies this
      ensures Valid() && AtRest()
      ensures zones == old(zones) && hasRegistry == old(hasRegistry) && lastMove == old(lastMove)
    {
      isDragging := false;
      isOver := None;
      start := None;
      initialPosition := Origin;
      currentPosition := Origin;
      item := None;
    }

    method AddDroppable(id: ZoneId, rect: Rect)
      requires Valid()
      modifies this
      ensures Valid() && hasRegistry
      ensures zones == Upsert(old(zones), id, rect)
      ensures Lookup(zones, id) == Some(rect)
      ensures forall other :: other != id ==> Lookup(zones, other) == Lookup(old(zones), other)
      ensures isDragging == old(isDragging) && isOver == old(isOver) && start == old(start) && item == old(item)
      ensures initialPosition == old(initialPosition) && currentPosition == old(currentPosition) && lastMove == old(lastMove)
    {
      UpsertSpec(zones, id, rect);
      zones := Upsert(zones, id, rect);
      hasRegistry := true;
    }

    method RemoveDroppable(id: ZoneId)
      requires Valid()
      modifies this
      ensures Valid() && hasRegistry == old(hasRegistry)
      ensures !old(hasRegistry) ==> zones == old(zones)
      ensures old(hasRegistry) ==> zones == Remove(old(zones), id)
      ensures Lookup(zones, id) == None
      ensures forall other :: other != id ==> Lookup(zones, other) == Lookup(old(zones), other)
      ensures isDragging == old(isDragging) && isOver == old(isOver) && start == old(start) && item == old(item)
      ensures initialPosition == old(initialPosition) && currentPosition == old(currentPosition) && lastMove == old(lastMove)
    {
      if !hasRegistry {
        return;
      }
      RemoveSpec(zones, id);
      zones := Remove(zones, id);
    }

    /** The `for...in` scan: every zone containing the pointer overwrites the answer. */
    method CheckDroppableCollision(p: Point) returns (maxId: Option<ZoneId>)
      ensures maxId == Collision(zones, p)
    {
      maxId := None;
      var i := 0;
      while i < |zones|
        invariant 0 <= i <= |zones|
        invariant maxId == Collision(zones[..i], p)
      {
        assert zones[..i + 1][..i] == zones[..i];
        if Inside(p, zones[i].rect) {
          maxId := Some(zones[i].id);
        }
        i := i + 1;
      }
      assert zones[..i] == zones;
    }

    method HandleDragStart(p: Point, id: ItemId)
      requires Valid()
      modifies this
      ensures Valid()
      ensures isDragging && start == Collision(zones, p) && item == Some(id)
      ensures initialPosition == p && currentPosition == p
      ensures isOver == old(isOver) && lastMove == old(lastMove)
      ensures zones == old(zones) && hasRegistry == old(hasRegistry)
    {
      isDragging := true;
      start := CheckDroppableCollision(p);
      initialPosition := p;
      currentPosition := p;
      item := Some(id);
    }

    /** Returns whether a re-render was requested, which happens iff the hovered zone changed. */
    method HandleDragging(p: Point) returns (rerender: bool)
      requires Valid()
      modifies this
      ensures Valid()
      ensures lastMove == Some(p) && currentPosition == p
      ensures isOver == Collision(zones, p)
      ensures rerender <==> isOver != old(isOver)
      ensures isDragging == old(isDragging) && start == old(start) && item == old(item)
      ensures initialPosition == old(initialPosition)
      ensures zones == old(zones) && hasRegistry == old(hasRegistry)
    {
      lastMove := Some(p);
      currentPosition := p;
      var over := CheckDroppableCollision(p);
      rerender := false;
      if over != isOver {
        isOver := over;
        rerender := true;
      }
    }

    /**
     * With an observer, emit `{over, from, item}` from the session as it was
     * and reset; without one, return at once and change nothing.
     */
    method HandleDragEnd(hasObserver: bool) returns (event: Option<DragEndEvent>)
      requires Valid()
      modifies this
      ensures Valid()
      ensures !hasObserver ==> event == None && unchanged(this)
      ensures hasObserver ==> event == Some(DragEndEvent(old(isOver), old(start), old(item))) && AtRest()
      ensures zones == old(zones) && hasRegistry == old(hasRegistry) && lastMove == old(lastMove)
    {
      if !hasObserver {
        return None;
      }
      event := Some(DragEndEvent(isOver, start, item));
      Reset();
    }
  }

  /**
   * A whole drag over two registered columns: pressing inside one zone,
   * moving into the other and releasing reports the move from the first to
   * the second, and leaves the session at rest.
   */
  method DragBetweenZones(a: Rect, b: Rect, p: Point, q: Point, id: ItemId) returns (event: Option<DragEndEvent>)
    requires Inside(p, a) && !Inside(p, b)
    requires Inside(q, b)
    ensures event == Some(DragEndEvent(Some("done"), Some("todo"), Some(id)))
  {
    var c := new Coordinator();
    c.AddDroppable("todo", a);
    c.AddDroppable("done", b);
    assert c.zones == [Zone("todo", a), Zone("done", b)];
    c.HandleDragStart(p, id);
    var _ := c.HandleDragging(q);
    event := c.HandleDragEnd(true);
  }
}
