/** Rooms, their children and the unassigned devices of a topology, in the membership view and in the
    grouped view. Kind spellings are already normalised; the collation of names is a parameter. */
module Topology {
  import opened Common

  datatype Kind = Room | Bulb | OtherKind

  datatype Item = Item(id: string, name: string, kind: Kind, parentId: Option<string>)

  datatype RoomMembership = RoomMembership(room: Item, children: seq<Item>)

  datatype Membership = Membership(rooms: seq<RoomMembership>, unassigned: seq<Item>)

  /** compareItems(left, right) <= 0. */
  type Collation = (Item, Item) -> bool

  // ----- Selection

  function Rooms(items: seq<Item>): (r: seq<Item>)
    ensures forall x :: x in r <==> x in items && x.kind.Room?
  {
    if items == [] then [] else (if items[0].kind.Room? then [items[0]] else []) + Rooms(items[1..])
  }

  function RoomIds(items: seq<Item>): (r: set<string>)
    ensures forall id :: id in r <==> exists x :: x in items && x.kind.Room? && x.id == id
  {
    set x | x in items && x.kind.Room? :: x.id
  }

  /** Devices assigned to a room. */
  function ChildrenOf(items: seq<Item>, room: string): seq<Item> {
    if items == [] then []
    else (if IsChild(items[0], room) then [items[0]] else []) + ChildrenOf(items[1..], room)
  }

  predicate IsChild(item: Item, room: string) {
    !item.kind.Room? && item.parentId == Some(room)
  }

  /** Devices whose parent is not one of the rooms. */
  function Unassigned(items: seq<Item>, rooms: set<string>): seq<Item> {
    if items == [] then []
    else (if IsUnassigned(items[0], rooms) then [items[0]] else []) + Unassigned(items[1..], rooms)
  }

  predicate IsUnassigned(item: Item, rooms: set<string>) {
    !item.kind.Room? && !(item.parentId.Some? && item.parentId.value in rooms)
  }

  // ----- Membership

  function RoomMemberships(rooms: seq<Item>, items: seq<Item>, leq: Collation): (r: seq<RoomMembership>)
    ensures |r| == |rooms|
    ensures forall i :: 0 <= i < |rooms| ==>
      r[i] == RoomMembership(rooms[i], Sort(ChildrenOf(items, rooms[i].id), leq))
  {
    seq(|rooms|, i requires 0 <= i < |rooms| =>
      RoomMembership(rooms[i], Sort(ChildrenOf(items, rooms[i].id), leq)))
  }

  function BuildMembership(items: seq<Item>, leq: Collation): Membership {
    Membership(RoomMemberships(Sort(Rooms(items), leq), items, leq), Unassigned(items, RoomIds(items)))
  }

  /** Children collected so far, by room. */
  ghost predicate Collects(byRoom: map<string, seq<Item>>, items: seq<Item>, rooms: set<string>) {
    forall room :: room in rooms ==>
      ChildrenOf(items, room) == if room in byRoom then byRoom[room] else []
  }

  /** The source's loop, which fills a map of children and a list of unassigned devices. */
  method CollectChildren(items: seq<Item>, roomIds: set<string>)
    returns (byRoom: map<string, seq<Item>>, unassigned: seq<Item>)
    ensures Collects(byRoom, items, roomIds) && unassigned == Unassigned(items, roomIds)
  {
    byRoom, unassigned := map[], [];
    var i := 0;
    while i < |items|
      invariant 0 <= i <= |items|
      invariant Collects(byRoom, items[..i], roomIds)
      invariant unassigned == Unassigned(items[..i], roomIds)
    {
      var item := items[i];
      assert items[..i + 1] == items[..i] + [item];
      CollectsStep(byRoom, items[..i], roomIds, item);
      UnassignedSnoc(items[..i], roomIds, item);
      i := i + 1;
      if item.kind.Room? { continue; }
      if item.parentId.Some? && item.parentId.value in roomIds {
        var parent := item.parentId.value;
        byRoom := byRoom[parent := (if parent in byRoom then byRoom[parent] else []) + [item]];
      } else {
        unassigned := unassigned + [item];
      }
    }
    assert items[..i] == items;
  }

  /** The view around that loop: sorted rooms, each with its sorted children. */
  method BuildMembershipLoop(items: seq<Item>, leq: Collation) returns (r: Membership)
    ensures r == BuildMembership(items, leq)
  {
    var rooms := Sort(Rooms(items), leq);
    var byRoom, unassigned := CollectChildren(items, RoomIds(items));
    SortedRoomIds(items, leq);
    MembershipsFromMap(rooms, items, byRoom, leq, RoomIds(items));
    r := Membership(FromMap(rooms, byRoom, leq), unassigned);
  }

  lemma {:induction false} RoomsBag(items: seq<Item>, x: Item)
    ensures multiset(Rooms(items))[x] == if x.kind.Room? then multiset(items)[x] else 0
  {
    if items == [] {
    } else {
      RoomsBag(items[1..], x);
      assert items == [items[0]] + items[1..];
    }
  }

  /** The rooms of a view, without their children. */
  function RoomsOf(view: Membership): (r: seq<Item>)
    ensures |r| == |view.rooms|
  {
    seq(|view.rooms|, i requires 0 <= i < |view.rooms| => view.rooms[i].room)
  }

  /** The whole view, duplicate ids included: every room is listed as often as it occurs, with exactly the
      devices that name it as their parent, and every other device is unassigned. */
  lemma {:induction false} ViewIsComplete(items: seq<Item>, leq: Collation, x: Item)
    ensures var view := BuildMembership(items, leq);
      && multiset(RoomsOf(view))[x] == (if x.kind.Room? then multiset(items)[x] else 0)
      && (forall i :: 0 <= i < |view.rooms| ==>
            multiset(view.rooms[i].children)[x]
              == if !x.kind.Room? && x.parentId == Some(view.rooms[i].room.id) then multiset(items)[x] else 0)
      && (multiset(view.unassigned)[x]
            == if !x.kind.Room? && (x.parentId.None? || x.parentId.value !in RoomIds(items)) then multiset(items)[x]
               else 0)
  {
    var view := BuildMembership(items, leq);
    RoomsListed(items, leq, x);
    UnassignedCount(items, RoomIds(items), x);
    forall i | 0 <= i < |view.rooms|
      ensures multiset(view.rooms[i].children)[x]
        == if !x.kind.Room? && x.parentId == Some(view.rooms[i].room.id) then multiset(items)[x] else 0
    {
      RoomChildren(items, leq, i, x);
    }
  }

  lemma {:induction false} RoomChildren(items: seq<Item>, leq: Collation, i: nat, x: Item)
    requires i < |BuildMembership(items, leq).rooms|
    ensures var m := BuildMembership(items, leq).rooms[i];
      multiset(m.children)[x] == if !x.kind.Room? && x.parentId == Some(m.room.id) then multiset(items)[x] else 0
  {
    ChildrenCount(items, BuildMembership(items, leq).rooms[i].room.id, x);
  }

  lemma {:induction false} RoomsListed(items: seq<Item>, leq: Collation, x: Item)
    ensures multiset(RoomsOf(BuildMembership(items, leq)))[x] == if x.kind.Room? then multiset(items)[x] else 0
  {
    RoomsBag(items, x);
    ViewRooms(items, leq);
  }

  lemma {:induction false} ViewRooms(items: seq<Item>, leq: Collation)
    ensures RoomsOf(BuildMembership(items, leq)) == Sort(Rooms(items), leq)
  {
  }

  /** Rooms and children stand in the order of their names, those that tie in the order of the items. */
  lemma {:induction false} ViewIsSorted(items: seq<Item>, leq: Collation, a: Item)
    requires TotalPreorder(leq)
    ensures var view := BuildMembership(items, leq);
      && Ordered(GroupItems(items, leq).1, leq)
      && Ordered(RoomsOf(view), leq) && Ties(RoomsOf(view), a, leq) == Ties(Rooms(items), a, leq)
      && forall i :: 0 <= i < |view.rooms| ==>
           && Ordered(view.rooms[i].children, leq)
           && Ties(view.rooms[i].children, a, leq) == Ties(ChildrenOf(items, view.rooms[i].room.id), a, leq)
  {
    var view, rooms := BuildMembership(items, leq), Sort(Rooms(items), leq);
    assert RoomsOf(view) == rooms;
    SortOrders(Standalone(items, Excluded(items)), leq);
    SortOrders(Rooms(items), leq);
    SortIsStable(Rooms(items), a, leq);
    forall i | 0 <= i < |view.rooms|
      ensures Ordered(view.rooms[i].children, leq)
      ensures Ties(view.rooms[i].children, a, leq) == Ties(ChildrenOf(items, view.rooms[i].room.id), a, leq)
    {
      SortOrders(ChildrenOf(items, rooms[i].id), leq);
      SortIsStable(ChildrenOf(items, rooms[i].id), a, leq);
    }
  }

  function FromMap(rooms: seq<Item>, byRoom: map<string, seq<Item>>, leq: Collation): (r: seq<RoomMembership>)
    ensures |r| == |rooms|
  {
    seq(|rooms|, k requires 0 <= k < |rooms| =>
      RoomMembership(rooms[k], Sort(if rooms[k].id in byRoom then byRoom[rooms[k].id] else [], leq)))
  }

  lemma {:induction false} MembershipsFromMap(
      rooms: seq<Item>, items: seq<Item>, byRoom: map<string, seq<Item>>, leq: Collation, ids: set<string>)
    requires Collects(byRoom, items, ids) && forall k :: 0 <= k < |rooms| ==> rooms[k].id in ids
    ensures FromMap(rooms, byRoom, leq) == RoomMemberships(rooms, items, leq)
  {
    forall k | 0 <= k < |rooms| ensures FromMap(rooms, byRoom, leq)[k] == RoomMemberships(rooms, items, leq)[k] {
      assert rooms[k].id in ids;
    }
  }

  lemma {:induction false} SortedRoomIds(items: seq<Item>, leq: Collation)
    ensures forall k :: 0 <= k < |Sort(Rooms(items), leq)| ==> Sort(Rooms(items), leq)[k].id in RoomIds(items)
  {
    SameMembers(Rooms(items), Sort(Rooms(items), leq));
    forall k | 0 <= k < |Sort(Rooms(items), leq)| ensures Sort(Rooms(items), leq)[k].id in RoomIds(items) {
      assert Sort(Rooms(items), leq)[k] in Sort(Rooms(items), leq);
    }
  }

  lemma {:induction false} ChildrenSnoc(items: seq<Item>, room: string, item: Item)
    ensures ChildrenOf(items + [item], room) == ChildrenOf(items, room) + (if IsChild(item, room) then [item] else [])
  {
    var last := if IsChild(item, room) then [item] else [];
    if items == [] {
      assert items + [item] == [item] && [item][1..] == [];
    } else {
      var first := if IsChild(items[0], room) then [items[0]] else [];
      assert (items + [item])[1..] == items[1..] + [item];
      ChildrenSnoc(items[1..], room, item);
      Associate(first, ChildrenOf(items[1..], room), last);
    }
  }

  lemma {:induction false} UnassignedSnoc(items: seq<Item>, rooms: set<string>, item: Item)
    ensures Unassigned(items + [item], rooms)
      == Unassigned(items, rooms) + (if IsUnassigned(item, rooms) then [item] else [])
  {
    var last := if IsUnassigned(item, rooms) then [item] else [];
    if items == [] {
      assert items + [item] == [item] && [item][1..] == [];
    } else {
      var first := if IsUnassigned(items[0], rooms) then [items[0]] else [];
      assert (items + [item])[1..] == items[1..] + [item];
      UnassignedSnoc(items[1..], rooms, item);
      Associate(first, Unassigned(items[1..], rooms), last);
    }
  }

  lemma CollectsStep(byRoom: map<string, seq<Item>>, items: seq<Item>, rooms: set<string>, item: Item)
    requires Collects(byRoom, items, rooms)
    ensures if !item.kind.Room? && item.parentId.Some? && item.parentId.value in rooms then
        var parent := item.parentId.value;
        Collects(byRoom[parent := (if parent in byRoom then byRoom[parent] else []) + [item]], items + [item], rooms)
      else Collects(byRoom, items + [item], rooms)
  {
    forall room | room in rooms ensures ChildrenOf(items + [item], room)
      == ChildrenOf(items, room) + (if IsChild(item, room) then [item] else [])
    {
      ChildrenSnoc(items, room, item);
    }
  }

  // ----- Partition

  function Devices(items: seq<Item>): seq<Item> {
    if items == [] then [] else (if !items[0].kind.Room? then [items[0]] else []) + Devices(items[1..])
  }

  /** How many of the rooms have this id. */
  function CountId(rooms: seq<Item>, id: string): nat {
    if rooms == [] then 0 else (if rooms[0].id == id then 1 else 0) + CountId(rooms[1..], id)
  }

  /** Every child listed by some room, as a bag. */
  ghost function AllChildren(memberships: seq<RoomMembership>): multiset<Item> {
    if memberships == [] then multiset{} else multiset(memberships[0].children) + AllChildren(memberships[1..])
  }

  lemma {:induction false} ChildrenCount(items: seq<Item>, room: string, x: Item)
    ensures multiset(ChildrenOf(items, room))[x] == if IsChild(x, room) then multiset(items)[x] else 0
  {
    if items == [] {
    } else {
      assert items == [items[0]] + items[1..];
      ChildrenCount(items[1..], room, x);
    }
  }

  lemma {:induction false} UnassignedCount(items: seq<Item>, rooms: set<string>, x: Item)
    ensures multiset(Unassigned(items, rooms))[x] == if IsUnassigned(x, rooms) then multiset(items)[x] else 0
  {
    if items == [] {
    } else {
      assert items == [items[0]] + items[1..];
      UnassignedCount(items[1..], rooms, x);
    }
  }

  lemma {:induction false} DevicesCount(items: seq<Item>, x: Item)
    ensures multiset(Devices(items))[x] == if x.kind.Room? then 0 else multiset(items)[x]
  {
    if items == [] {
    } else {
      assert items == [items[0]] + items[1..];
      DevicesCount(items[1..], x);
    }
  }

  function Times(n: nat, m: nat): nat {
    if n == 0 then 0 else m + Times(n - 1, m)
  }

  lemma {:induction false} TimesIsProduct(n: nat, m: nat)
    ensures Times(n, m) == n * m
  {
    if n == 0 {
    } else {
      TimesIsProduct(n - 1, m);
    }
  }

  /** How often the rooms list a device among their children. */
  function Listed(rooms: seq<Item>, x: Item): nat {
    if x.kind.Room? || x.parentId.None? then 0 else CountId(rooms, x.parentId.value)
  }

  lemma {:induction false} MembershipsCons(rooms: seq<Item>, items: seq<Item>, leq: Collation)
    requires rooms != []
    ensures var all := RoomMemberships(rooms, items, leq);
      && multiset(all[0].children) == multiset(ChildrenOf(items, rooms[0].id))
      && all[1..] == RoomMemberships(rooms[1..], items, leq)
  {
  }

  lemma ListedCons(rooms: seq<Item>, x: Item, m: nat)
    requires rooms != []
    ensures Times(Listed(rooms, x), m)
      == (if IsChild(x, rooms[0].id) then m else 0) + Times(Listed(rooms[1..], x), m)
  {
  }

  lemma {:induction false} AllChildrenCount(rooms: seq<Item>, items: seq<Item>, leq: Collation, x: Item)
    ensures AllChildren(RoomMemberships(rooms, items, leq))[x] == Times(Listed(rooms, x), multiset(items)[x])
  {
    if rooms == [] {
    } else {
      MembershipsCons(rooms, items, leq);
      AllChildrenCount(rooms[1..], items, leq, x);
      ChildrenCount(items, rooms[0].id, x);
      ListedCons(rooms, x, multiset(items)[x]);
    }
  }

  lemma {:induction false} CountIdMember(rooms: seq<Item>, id: string)
    ensures CountId(rooms, id) > 0 <==> exists x :: x in rooms && x.id == id
  {
    if rooms == [] {
    } else {
      CountIdMember(rooms[1..], id);
      assert rooms == [rooms[0]] + rooms[1..];
    }
  }

  /** How often the view shows a device: once for each room carrying its parent's id, or once unassigned. */
  function Shown(rooms: seq<Item>, x: Item): nat {
    if x.kind.Room? then 0 else if Listed(rooms, x) == 0 then 1 else Listed(rooms, x)
  }

  ghost function ShownBag(view: Membership): multiset<Item> {
    AllChildren(view.rooms) + multiset(view.unassigned)
  }

  lemma {:induction false} UnassignedUnlisted(items: seq<Item>, leq: Collation, x: Item)
    ensures IsUnassigned(x, RoomIds(items)) <==> !x.kind.Room? && Listed(Sort(Rooms(items), leq), x) == 0
  {
    var rooms := Sort(Rooms(items), leq);
    SameMembers(Rooms(items), rooms);
    if x.parentId.Some? {
      CountIdMember(rooms, x.parentId.value);
    }
  }

  /** Multiplicities in the view, for every topology, duplicate ids included. */
  lemma {:induction false} ViewCounts(items: seq<Item>, leq: Collation, x: Item)
    ensures ShownBag(BuildMembership(items, leq))[x] == Shown(Sort(Rooms(items), leq), x) * multiset(items)[x]
  {
    var rooms := Sort(Rooms(items), leq);
    AllChildrenCount(rooms, items, leq, x);
    UnassignedCount(items, RoomIds(items), x);
    UnassignedUnlisted(items, leq, x);
    TimesIsProduct(Shown(rooms, x), multiset(items)[x]);
    assert Times(1, multiset(items)[x]) == multiset(items)[x];
  }

  /** No device's parent id is carried by two rooms. */
  ghost predicate ParentsUnambiguous(items: seq<Item>, rooms: seq<Item>) {
    forall x :: x in items ==> Listed(rooms, x) <= 1
  }

  /** Children and unassigned devices partition the devices exactly when no device's parent id is
      carried by two rooms. */
  lemma {:induction false} PartitionIff(items: seq<Item>, leq: Collation)
    ensures ShownBag(BuildMembership(items, leq)) == multiset(Devices(items))
      <==> ParentsUnambiguous(items, Sort(Rooms(items), leq))
  {
    var rooms := Sort(Rooms(items), leq);
    if ParentsUnambiguous(items, rooms) {
      forall x: Item ensures ShownBag(BuildMembership(items, leq))[x] == multiset(Devices(items))[x] {
        ViewCounts(items, leq, x);
        DevicesCount(items, x);
        OnceOrAbsent(items, rooms, x);
      }
      assert ShownBag(BuildMembership(items, leq)) == multiset(Devices(items));
    } else {
      var x :| x in items && Listed(rooms, x) > 1;
      ViewCounts(items, leq, x);
      DevicesCount(items, x);
      TwiceIsMore(Shown(rooms, x), multiset(items)[x]);
    }
  }

  lemma OnceOrAbsent(items: seq<Item>, rooms: seq<Item>, x: Item)
    requires ParentsUnambiguous(items, rooms)
    ensures Shown(rooms, x) * multiset(items)[x] == if x.kind.Room? then 0 else multiset(items)[x]
  {
    assert x in items <==> multiset(items)[x] > 0;
  }

  lemma TwiceIsMore(n: nat, m: nat)
    requires n >= 2 && m > 0
    ensures n * m > m
  {
    assert (n - 1) * m > 0;
  }

  // ----- The grouped view

  datatype Group = Group(id: string, items: seq<Item>)

  function AssignedIds(items: seq<Item>, rooms: set<string>): set<string> {
    set x | x in items && !x.kind.Room? && x.parentId.Some? && x.parentId.value in rooms :: x.id
  }

  /** Items that are neither a room nor, by id, one of the assigned devices. */
  function Standalone(items: seq<Item>, excluded: set<string>): seq<Item> {
    if items == [] then []
    else (if items[0].id !in excluded then [items[0]] else []) + Standalone(items[1..], excluded)
  }

  function RoomGroups(rooms: seq<Item>, items: seq<Item>, leq: Collation): (r: seq<Group>)
    ensures |r| == |rooms|
  {
    seq(|rooms|, i requires 0 <= i < |rooms| =>
      Group(rooms[i].id, [rooms[i]] + Sort(ChildrenOf(items, rooms[i].id), leq)))
  }

  /** Room groups, and the standalone items that form the last group when there are any. */
  function GroupItems(items: seq<Item>, leq: Collation): (seq<Group>, seq<Item>) {
    (RoomGroups(Sort(Rooms(items), leq), items, leq), Sort(Standalone(items, Excluded(items)), leq))
  }

  lemma {:induction false} StandaloneCount(items: seq<Item>, excluded: set<string>, x: Item)
    ensures multiset(Standalone(items, excluded))[x] == if x.id !in excluded then multiset(items)[x] else 0
  {
    if items == [] {
    } else {
      assert items == [items[0]] + items[1..];
      StandaloneCount(items[1..], excluded, x);
    }
  }

  /** The ids that keep an item out of the standalone group. */
  function Excluded(items: seq<Item>): set<string> {
    RoomIds(items) + AssignedIds(items, RoomIds(items))
  }

  lemma StandaloneIffFresh(items: seq<Item>)
    ensures var alone, unassigned := Standalone(items, Excluded(items)), Unassigned(items, RoomIds(items));
      multiset(alone) == multiset(unassigned) <==> forall x :: x in unassigned ==> x.id !in Excluded(items)
  {
    var alone, unassigned := Standalone(items, Excluded(items)), Unassigned(items, RoomIds(items));
    if forall x :: x in unassigned ==> x.id !in Excluded(items) {
      forall x: Item ensures multiset(alone)[x] == multiset(unassigned)[x] {
        StandaloneCount(items, Excluded(items), x);
        UnassignedCount(items, RoomIds(items), x);
        assert x in items <==> multiset(items)[x] > 0;
        assert x in unassigned <==> multiset(unassigned)[x] > 0;
        assert x in items && x.id !in Excluded(items) ==> IsUnassigned(x, RoomIds(items));
      }
      assert multiset(alone) == multiset(unassigned);
    } else {
      var x :| x in unassigned && x.id in Excluded(items);
      StandaloneCount(items, Excluded(items), x);
      assert multiset(unassigned)[x] > 0;
    }
  }

  /** The grouped view agrees with the membership view room by room, and its standalone items are
      the unassigned devices exactly when none of these shares its id with a room or an assigned device. */
  lemma {:induction false} GroupsAgree(items: seq<Item>, leq: Collation)
    ensures var view, groups := BuildMembership(items, leq), GroupItems(items, leq);
      && |groups.0| == |view.rooms|
      && (forall i :: 0 <= i < |view.rooms| ==>
            groups.0[i] == Group(view.rooms[i].room.id, [view.rooms[i].room] + view.rooms[i].children))
      && (multiset(groups.1) == multiset(view.unassigned) <==>
            forall x :: x in view.unassigned ==> x.id !in Excluded(items))
  {
    StandaloneIffFresh(items);
  }

  // ----- Unique ids

  ghost predicate DistinctIds(items: seq<Item>) {
    forall i, j :: 0 <= i < j < |items| ==> items[i].id != items[j].id
  }

  lemma {:induction false} DistinctCountId(items: seq<Item>, id: string)
    requires DistinctIds(items)
    ensures CountId(items, id) <= 1
  {
    if items == [] {
    } else {
      DistinctCountId(items[1..], id);
      CountIdMember(items[1..], id);
    }
  }

  lemma {:induction false} RoomsCountId(items: seq<Item>, id: string)
    ensures CountId(Rooms(items), id) <= CountId(items, id)
  {
    if items == [] {
    } else {
      RoomsCountId(items[1..], id);
      assert items[0].kind.Room? ==> Rooms(items)[1..] == Rooms(items[1..]);
      assert !items[0].kind.Room? ==> Rooms(items) == Rooms(items[1..]);
    }
  }

  lemma {:induction false} InsertCountId(x: Item, xs: seq<Item>, leq: Collation, id: string)
    ensures CountId(Insert(x, xs, leq), id) == (if x.id == id then 1 else 0) + CountId(xs, id)
  {
    if xs == [] || leq(x, xs[0]) {
      assert ([x] + xs)[1..] == xs;
    } else {
      InsertCountId(x, xs[1..], leq, id);
      assert ([xs[0]] + Insert(x, xs[1..], leq))[1..] == Insert(x, xs[1..], leq);
    }
  }

  lemma {:induction false} SortCountId(xs: seq<Item>, leq: Collation, id: string)
    ensures CountId(Sort(xs, leq), id) == CountId(xs, id)
  {
    if xs == [] {
    } else {
      SortCountId(xs[1..], leq, id);
      InsertCountId(xs[0], Sort(xs[1..], leq), leq, id);
    }
  }

  lemma DistinctById(items: seq<Item>, x: Item, y: Item)
    requires DistinctIds(items) && x in items && y in items && x.id == y.id
    ensures x == y
  {
    var i :| 0 <= i < |items| && items[i] == x;
    var j :| 0 <= j < |items| && items[j] == y;
    assert i == j;
  }

  /** No unassigned device shares its id with a room or an assigned device. */
  lemma UnassignedNotExcluded(items: seq<Item>, x: Item)
    requires DistinctIds(items) && x in Unassigned(items, RoomIds(items))
    ensures x.id !in Excluded(items)
  {
    UnassignedCount(items, RoomIds(items), x);
    assert multiset(Unassigned(items, RoomIds(items)))[x] > 0;
    assert x in multiset(items) && IsUnassigned(x, RoomIds(items));
    if x.id in Excluded(items) {
      var y :| y in items && y.id == x.id && !IsUnassigned(y, RoomIds(items));
      DistinctById(items, x, y);
    }
  }

  /** With unique ids the rooms' children and the unassigned devices partition the devices, and the
      grouped view shows the same rooms and the same standalone devices. */
  lemma {:induction false} UniqueIdsPartition(items: seq<Item>, leq: Collation)
    requires DistinctIds(items)
    ensures ShownBag(BuildMembership(items, leq)) == multiset(Devices(items))
    ensures var view, groups := BuildMembership(items, leq), GroupItems(items, leq);
      && |groups.0| == |view.rooms|
      && (forall i :: 0 <= i < |view.rooms| ==>
            groups.0[i] == Group(view.rooms[i].room.id, [view.rooms[i].room] + view.rooms[i].children))
      && multiset(groups.1) == multiset(view.unassigned)
  {
    DistinctUnambiguous(items, leq);
    PartitionIff(items, leq);
    NoneExcluded(items);
    GroupsAgree(items, leq);
  }

  lemma {:induction false} DistinctUnambiguous(items: seq<Item>, leq: Collation)
    requires DistinctIds(items)
    ensures ParentsUnambiguous(items, Sort(Rooms(items), leq))
  {
    var rooms := Sort(Rooms(items), leq);
    forall x | x in items ensures Listed(rooms, x) <= 1 {
      if !x.kind.Room? && x.parentId.Some? {
        RoomCarriesOnce(items, leq, x.parentId.value);
      }
    }
  }

  lemma {:induction false} RoomCarriesOnce(items: seq<Item>, leq: Collation, id: string)
    requires DistinctIds(items)
    ensures CountId(Sort(Rooms(items), leq), id) <= 1
  {
    SortCountId(Rooms(items), leq, id);
    RoomsCountId(items, id);
    DistinctCountId(items, id);
  }

  lemma NoneExcluded(items: seq<Item>)
    requires DistinctIds(items)
    ensures forall x :: x in Unassigned(items, RoomIds(items)) ==> x.id !in Excluded(items)
  {
    forall x | x in Unassigned(items, RoomIds(items)) ensures x.id !in Excluded(items) {
      UnassignedNotExcluded(items, x);
    }
  }
}
