/** The browser-only order of the room board: reconciliation with the current rooms, moves, reset. */
module RoomBoard {

  ghost predicate NoDuplicates(xs: seq<string>) {
    forall i, j :: 0 <= i < j < |xs| ==> xs[i] != xs[j]
  }

  function Ids(xs: seq<string>): set<string> {
    set x | x in xs
  }

  /** First occurrences that are available, skipping what was seen before. */
  function FirstOccurrences(xs: seq<string>, available: set<string>, seen: set<string>): (r: seq<string>)
    ensures forall x :: x in r <==> x in xs && x in available && x !in seen
    ensures NoDuplicates(r)
  {
    if xs == [] then []
    else if xs[0] in available && xs[0] !in seen then
      var rest := FirstOccurrences(xs[1..], available, seen + {xs[0]});
      assert forall i :: 0 <= i < |rest| ==> rest[i] in rest;
      [xs[0]] + rest
    else FirstOccurrences(xs[1..], available, seen)
  }

  /** Rooms not yet included, in the appliance's order, each once. */
  function Appended(roomIds: seq<string>, included: set<string>): (r: seq<string>)
    ensures forall x :: x in r <==> x in roomIds && x !in included
    ensures NoDuplicates(r)
  {
    FirstOccurrences(roomIds, Ids(roomIds), included)
  }

  function ReconcileRoomOrder(roomIds: seq<string>, preferred: seq<string>): seq<string> {
    var kept := FirstOccurrences(preferred, Ids(roomIds), {});
    kept + Appended(roomIds, Ids(kept))
  }

  /** The source's loop over the rooms that the preferred order left out. */
  method ReconcileLoop(roomIds: seq<string>, preferred: seq<string>) returns (reconciled: seq<string>)
    ensures reconciled == ReconcileRoomOrder(roomIds, preferred)
  {
    ghost var available := Ids(roomIds);
    reconciled := FirstOccurrences(preferred, Ids(roomIds), {});
    ghost var kept := reconciled;
    var included := Ids(reconciled);
    var i := 0;
    while i < |roomIds|
      invariant 0 <= i <= |roomIds|
      invariant forall x :: x in roomIds[i..] ==> x in available
      invariant reconciled + FirstOccurrences(roomIds[i..], available, included)
        == ReconcileRoomOrder(roomIds, preferred)
    {
      assert roomIds[i..][0] == roomIds[i] && roomIds[i..][1..] == roomIds[i + 1..];
      if roomIds[i] !in included {
        reconciled := reconciled + [roomIds[i]];
        included := included + {roomIds[i]};
      }
      i := i + 1;
    }
    assert reconciled + [] == reconciled;
  }

  /** The result lists every current room exactly once. */
  lemma ReconcilePermutes(roomIds: seq<string>, preferred: seq<string>)
    ensures var r := ReconcileRoomOrder(roomIds, preferred);
      && NoDuplicates(r)
      && (forall x :: x in r <==> x in roomIds)
      && (NoDuplicates(roomIds) ==> multiset(r) == multiset(roomIds))
  {
    var r := ReconcileRoomOrder(roomIds, preferred);
    var kept := FirstOccurrences(preferred, Ids(roomIds), {});
    ConcatClean(kept, Appended(roomIds, Ids(kept)));
    if NoDuplicates(roomIds) {
      forall x ensures multiset(r)[x] == multiset(roomIds)[x] {
        CountOnce(r, x);
        CountOnce(roomIds, x);
      }
      assert multiset(r) == multiset(roomIds);
    }
  }

  lemma ConcatClean(a: seq<string>, b: seq<string>)
    requires NoDuplicates(a) && NoDuplicates(b) && forall x :: x in a ==> x !in b
    ensures NoDuplicates(a + b)
  {
    assert forall i :: 0 <= i < |a| ==> a[i] in a;
    assert forall i :: 0 <= i < |b| ==> b[i] in b;
  }

  lemma {:induction false} CountOnce(xs: seq<string>, x: string)
    requires NoDuplicates(xs)
    ensures multiset(xs)[x] == if x in xs then 1 else 0
  {
    if xs == [] {
    } else {
      assert xs == [xs[0]] + xs[1..];
      CountOnce(xs[1..], x);
    }
  }

  /** `x` comes before `y` by first occurrence. */
  ghost predicate Precedes(xs: seq<string>, x: string, y: string) {
    exists i :: 0 <= i < |xs| && xs[i] == x && y !in xs[..i + 1]
  }

  lemma {:induction false} FirstOccurrencesOrder(
      xs: seq<string>, available: set<string>, seen: set<string>, x: string, y: string)
    requires x in available && x !in seen && y in available && y !in seen && x != y
    ensures Precedes(FirstOccurrences(xs, available, seen), x, y) <==> Precedes(xs, x, y)
  {
    if xs == [] {
    } else {
      var rest := xs[1..];
      PrecedesCons(xs[0], rest, x, y);
      assert xs == [xs[0]] + rest;
      if xs[0] in available && xs[0] !in seen {
        var tail := FirstOccurrences(rest, available, seen + {xs[0]});
        PrecedesCons(xs[0], tail, x, y);
        if xs[0] != x && xs[0] != y {
          FirstOccurrencesOrder(rest, available, seen + {xs[0]}, x, y);
        }
      } else {
        FirstOccurrencesOrder(rest, available, seen, x, y);
      }
    }
  }

  lemma PrecedesCons(head: string, rest: seq<string>, x: string, y: string)
    requires x != y
    ensures Precedes([head] + rest, x, y) <==> head == x || (head != y && Precedes(rest, x, y))
  {
    var all := [head] + rest;
    if head == x {
      assert all[0] == x && y !in all[..1];
    }
    if Precedes(all, x, y) && head != x {
      var i :| 0 <= i < |all| && all[i] == x && y !in all[..i + 1];
      assert all[..i + 1] == [head] + rest[..i];
      assert rest[i - 1] == x;
    }
    if head != y && Precedes(rest, x, y) {
      var i :| 0 <= i < |rest| && rest[i] == x && y !in rest[..i + 1];
      assert all[..i + 2] == [head] + rest[..i + 1];
      assert all[i + 1] == x;
    }
  }

  lemma NotPast(xs: seq<string>, ys: seq<string>, i: nat, y: string)
    requires i < |xs + ys| && y in xs && y !in (xs + ys)[..i + 1]
    ensures i < |xs|
  {
    var j :| 0 <= j < |xs| && xs[j] == y;
    var all := xs + ys;
    assert all[j] == y;
  }

  lemma PrecedesPrefix(xs: seq<string>, ys: seq<string>, x: string, y: string)
    requires x in xs && y in xs
    ensures Precedes(xs + ys, x, y) <==> Precedes(xs, x, y)
  {
    var all := xs + ys;
    if Precedes(xs, x, y) {
      var i :| 0 <= i < |xs| && xs[i] == x && y !in xs[..i + 1];
      assert all[..i + 1] == xs[..i + 1] && all[i] == x;
    }
    if Precedes(all, x, y) {
      var i :| 0 <= i < |all| && all[i] == x && y !in all[..i + 1];
      NotPast(xs, ys, i, y);
      assert all[..i + 1] == xs[..i + 1] && xs[i] == x;
    }
  }

  /** Two surviving rooms keep their relative order. */
  lemma ReconcileKeepsOrder(roomIds: seq<string>, preferred: seq<string>, x: string, y: string)
    requires x in roomIds && y in roomIds && x in preferred && y in preferred && x != y
    ensures Precedes(ReconcileRoomOrder(roomIds, preferred), x, y) <==> Precedes(preferred, x, y)
  {
    var available := Ids(roomIds);
    var kept := FirstOccurrences(preferred, available, {});
    FirstOccurrencesOrder(preferred, available, {}, x, y);
    PrecedesPrefix(kept, Appended(roomIds, Ids(kept)), x, y);
  }

  lemma {:induction false} PrecedesSuffix(xs: seq<string>, ys: seq<string>, x: string, y: string)
    requires x !in xs && y !in xs && x != y
    ensures Precedes(xs + ys, x, y) <==> Precedes(ys, x, y)
  {
    if xs == [] {
      assert xs + ys == ys;
    } else {
      assert xs + ys == [xs[0]] + (xs[1..] + ys);
      PrecedesCons(xs[0], xs[1..] + ys, x, y);
      PrecedesSuffix(xs[1..], ys, x, y);
    }
  }

  lemma PrecedesAcross(xs: seq<string>, ys: seq<string>, x: string, y: string)
    requires x in xs && y !in xs
    ensures Precedes(xs + ys, x, y)
  {
    var i :| 0 <= i < |xs| && xs[i] == x;
    assert (xs + ys)[i] == x && (xs + ys)[..i + 1] == xs[..i + 1];
  }

  /** The rooms of the preferred order come first; the others follow in the appliance's order. */
  lemma ReconcileAppends(roomIds: seq<string>, preferred: seq<string>, x: string, y: string)
    requires x in roomIds && y in roomIds && y !in preferred && x != y
    ensures Precedes(ReconcileRoomOrder(roomIds, preferred), x, y) <==> x in preferred || Precedes(roomIds, x, y)
  {
    var kept := FirstOccurrences(preferred, Ids(roomIds), {});
    if x in preferred {
      PrecedesAcross(kept, Appended(roomIds, Ids(kept)), x, y);
    } else {
      PrecedesSuffix(kept, Appended(roomIds, Ids(kept)), x, y);
      FirstOccurrencesOrder(roomIds, Ids(roomIds), Ids(kept), x, y);
    }
  }

  lemma {:induction false} FirstOccurrencesOfClean(xs: seq<string>, available: set<string>, seen: set<string>)
    requires NoDuplicates(xs) && forall x :: x in xs ==> x in available && x !in seen
    ensures FirstOccurrences(xs, available, seen) == xs
  {
    if xs == [] {
    } else {
      assert forall i :: 0 <= i < |xs[1..]| ==> xs[1..][i] == xs[i + 1];
      FirstOccurrencesOfClean(xs[1..], available, seen + {xs[0]});
    }
  }

  lemma Emptiness(xs: seq<string>)
    ensures (forall x :: x !in xs) <==> xs == []
  {
    if xs != [] {
      assert xs[0] in xs;
    }
  }

  lemma NothingAppended(roomIds: seq<string>, included: set<string>)
    requires forall x :: x in roomIds ==> x in included
    ensures Appended(roomIds, included) == []
  {
    Emptiness(Appended(roomIds, included));
  }

  /** An order that already lists the current rooms once each is left alone; so reconciling twice is
      reconciling once. */
  lemma ReconcileFixpoint(roomIds: seq<string>, order: seq<string>)
    requires NoDuplicates(order) && forall x :: x in order <==> x in roomIds
    ensures ReconcileRoomOrder(roomIds, order) == order
  {
    FirstOccurrencesOfClean(order, Ids(roomIds), {});
    NothingAppended(roomIds, Ids(order));
  }

  // ----- Moves

  function Without(xs: seq<string>, x: string): (r: seq<string>)
    ensures forall y :: y in r <==> y in xs && y != x
  {
    if xs == [] then [] else (if xs[0] != x then [xs[0]] else []) + Without(xs[1..], x)
  }

  function IndexOf(xs: seq<string>, x: string): (r: int)
    ensures -1 <= r < |xs|
    ensures r >= 0 ==> xs[r] == x && x !in xs[..r]
    ensures r < 0 <==> x !in xs
  {
    if xs == [] then -1
    else if xs[0] == x then 0
    else
      var rest := IndexOf(xs[1..], x);
      assert rest >= 0 ==> xs[..rest + 1] == [xs[0]] + xs[1..][..rest];
      assert xs == [xs[0]] + xs[1..];
      if rest < 0 then -1 else rest + 1
  }

  function MoveRoomBefore(order: seq<string>, moved: string, target: string): seq<string> {
    if moved == target || moved !in order || target !in order then order
    else
      var next := Without(order, moved);
      var k := IndexOf(next, target);
      next[..k] + [moved] + next[k..]
  }

  function MoveRoomByOffset(order: seq<string>, room: string, forward: bool): seq<string> {
    var current := IndexOf(order, room);
    var target := if forward then current + 1 else current - 1;
    if current < 0 || target < 0 || target >= |order| then order
    else order[current := order[target]][target := order[current]]
  }

  lemma {:induction false} WithoutClean(xs: seq<string>, x: string)
    requires NoDuplicates(xs)
    ensures NoDuplicates(Without(xs, x))
    ensures x !in xs ==> Without(xs, x) == xs
  {
    if xs == [] {
    } else {
      assert xs == [xs[0]] + xs[1..];
      assert forall i :: 0 <= i < |xs[1..]| ==> xs[1..][i] == xs[i + 1];
      WithoutClean(xs[1..], x);
      var rest := Without(xs[1..], x);
      assert forall i :: 0 <= i < |rest| ==> rest[i] in rest;
    }
  }

  lemma {:induction false} WithoutConcat(a: seq<string>, b: seq<string>, x: string)
    ensures Without(a + b, x) == Without(a, x) + Without(b, x)
  {
    if a == [] {
      assert a + b == b;
    } else {
      assert (a + b)[1..] == a[1..] + b;
      WithoutConcat(a[1..], b, x);
    }
  }

  lemma InsertClean(a: seq<string>, x: string, b: seq<string>)
    requires NoDuplicates(a + b) && x !in a + b
    ensures NoDuplicates(a + [x] + b)
  {
    var r := a + [x] + b;
    forall i, j | 0 <= i < j < |r| ensures r[i] != r[j] {
      var all := a + b;
      assert forall k :: 0 <= k < |r| && k != |a| ==> r[k] == all[if k < |a| then k else k - 1];
      assert forall k :: 0 <= k < |all| ==> all[k] in all;
    }
  }

  lemma SplitWithout(a: seq<string>, moved: string, b: seq<string>)
    requires moved !in a + b && NoDuplicates(a + b)
    ensures Without(a + [moved] + b, moved) == a + b
  {
    WithoutConcat(a + [moved], b, moved);
    WithoutConcat(a, [moved], moved);
    WithoutConcat(a, b, moved);
    WithoutClean(a + b, moved);
    DropMiddle(Without(a, moved), Without([moved], moved), Without(b, moved));
  }

  lemma DropMiddle(a: seq<string>, none: seq<string>, b: seq<string>)
    requires none == []
    ensures (a + none) + b == a + b
  {
  }

  /** The moved room ends up immediately ahead of its target and no other room changes its place
      relative to the rest; the order stays duplicate-free with the same rooms. A room that is its own target,
      or a missing one, moves nothing. */
  lemma MoveBeforeLaw(order: seq<string>, moved: string, target: string)
    requires NoDuplicates(order)
    ensures var r := MoveRoomBefore(order, moved, target);
      && NoDuplicates(r)
      && (forall x :: x in r <==> x in order)
      && (moved != target && moved in order && target in order ==>
            exists k :: 0 <= k < |r| - 1 && r[k] == moved && r[k + 1] == target)
      && Without(r, moved) == Without(order, moved)
      && (moved == target || moved !in order || target !in order ==> r == order)
  {
    if moved != target && moved in order && target in order {
      MovedBefore(order, moved, target);
    }
  }

  lemma MovedBefore(order: seq<string>, moved: string, target: string)
    requires NoDuplicates(order) && moved != target && moved in order && target in order
    ensures var r := MoveRoomBefore(order, moved, target);
      && NoDuplicates(r)
      && (forall x :: x in r <==> x in order)
      && (exists k :: 0 <= k < |r| - 1 && r[k] == moved && r[k + 1] == target)
      && Without(r, moved) == Without(order, moved)
  {
    var next := Without(order, moved);
    var k := IndexOf(next, target);
    var a, b := next[..k], next[k..];
    assert next == a + b && b[0] == target;
    WithoutClean(order, moved);
    InsertClean(a, moved, b);
    SplitWithout(a, moved, b);
    NextTo(a, moved, b);
    forall x ensures x in a + [moved] + b <==> x in order {
      assert x in a + b <==> x in order && x != moved;
    }
  }

  lemma NextTo(a: seq<string>, moved: string, b: seq<string>)
    requires b != []
    ensures var r := a + [moved] + b;
      exists k :: 0 <= k < |r| - 1 && r[k] == moved && r[k + 1] == b[0]
  {
    var r := a + [moved] + b;
    assert r[|a|] == moved && r[|a| + 1] == b[0];
  }

  lemma {:induction false} IndexOfClean(xs: seq<string>, k: nat)
    requires NoDuplicates(xs) && k < |xs|
    ensures IndexOf(xs, xs[k]) == k
  {
    var r := IndexOf(xs, xs[k]);
    assert xs[k] in xs;
  }

  function Swap(xs: seq<string>, i: nat, j: nat): seq<string>
    requires i < |xs| && j < |xs|
  {
    xs[i := xs[j]][j := xs[i]]
  }

  lemma SwapClean(xs: seq<string>, i: nat, j: nat)
    requires NoDuplicates(xs) && i < |xs| && j < |xs|
    ensures NoDuplicates(Swap(xs, i, j))
    ensures forall x :: x in Swap(xs, i, j) <==> x in xs
    ensures Swap(Swap(xs, i, j), j, i) == xs
  {
    var r := Swap(xs, i, j);
    forall x | x in xs ensures x in r {
      var k :| 0 <= k < |xs| && xs[k] == x;
      assert r[if k == i then j else if k == j then i else k] == x;
    }
  }

  /** The room at place `from` has moved to the neighbouring place `to`, the one there has taken its
      place, and all others stayed. */
  ghost predicate Exchanged(order: seq<string>, r: seq<string>, from: nat, to: nat) {
    && from < |order| && to < |order| && |r| == |order|
    && r[to] == order[from] && r[from] == order[to]
    && forall k :: 0 <= k < |order| && k != from && k != to ==> r[k] == order[k]
  }

  /** A move by one place exchanges the room with its neighbour on that side, when it has one, and
      moving back undoes it; otherwise nothing changes. */
  lemma MoveByOffsetLaw(order: seq<string>, room: string, forward: bool)
    requires NoDuplicates(order)
    ensures var r := MoveRoomByOffset(order, room, forward);
      && (forall k: nat :: k < |order| && order[k] == room && (if forward then k + 1 < |order| else k > 0) ==>
            Exchanged(order, r, k, if forward then k + 1 else k - 1))
      && (room !in order || order[if forward then |order| - 1 else 0] == room ==> r == order)
    ensures var r := MoveRoomByOffset(order, room, forward);
      && NoDuplicates(r) && |r| == |order|
      && (forall x :: x in r <==> x in order)
      && (r != order ==> MoveRoomByOffset(r, room, !forward) == order)
  {
    var current := IndexOf(order, room);
    var target := if forward then current + 1 else current - 1;
    if 0 <= current && 0 <= target < |order| {
      SwapClean(order, current, target);
      IndexOfClean(Swap(order, current, target), target);
    }
  }

  // ----- Runs

  datatype Operation =
    | Reconcile(roomIds: seq<string>)
    | MoveBefore(moved: string, target: string)
    | MoveBy(room: string, forward: bool)
    | Reset(roomIds: seq<string>)

  function Apply(order: seq<string>, op: Operation): seq<string> {
    match op
    case Reconcile(roomIds) => ReconcileRoomOrder(roomIds, order)
    case MoveBefore(moved, target) => MoveRoomBefore(order, moved, target)
    case MoveBy(room, forward) => MoveRoomByOffset(order, room, forward)
    case Reset(roomIds) => roomIds
  }

  function Run(order: seq<string>, ops: seq<Operation>): seq<string>
    decreases |ops|
  {
    if ops == [] then order else Run(Apply(order, ops[0]), ops[1..])
  }

  /** Room ids of the appliance are unique. */
  ghost predicate CleanInputs(ops: seq<Operation>) {
    forall i :: 0 <= i < |ops| && (ops[i].Reset? || ops[i].Reconcile?) ==> NoDuplicates(ops[i].roomIds)
  }

  lemma ApplyKeepsClean(order: seq<string>, op: Operation)
    requires NoDuplicates(order) && (op.Reset? || op.Reconcile? ==> NoDuplicates(op.roomIds))
    ensures NoDuplicates(Apply(order, op))
    ensures op.MoveBefore? || op.MoveBy? ==> forall x :: x in Apply(order, op) <==> x in order
    ensures op.Reset? || op.Reconcile? ==> forall x :: x in Apply(order, op) <==> x in op.roomIds
  {
    match op
    case Reconcile(roomIds) => ReconcilePermutes(roomIds, order);
    case MoveBefore(moved, target) =>
      if moved != target && moved in order && target in order {
        MoveBeforeLaw(order, moved, target);
      }
    case MoveBy(room, forward) => MoveByOffsetLaw(order, room, forward);
    case Reset(_) =>
  }

  /** The rooms a board shows after a run: those of the last reconciliation or reset. */
  function LastRooms(rooms: seq<string>, ops: seq<Operation>): seq<string>
    decreases |ops|
  {
    if ops == [] then rooms
    else LastRooms(if ops[0].Reconcile? || ops[0].Reset? then ops[0].roomIds else rooms, ops[1..])
  }

  /** Over every run the order is duplicate-free and lists exactly the rooms of the last
      reconciliation or reset, however they were moved about since. */
  lemma {:induction false} RunsKeepOrder(order: seq<string>, rooms: seq<string>, ops: seq<Operation>)
    requires NoDuplicates(order) && CleanInputs(ops) && forall x :: x in order <==> x in rooms
    ensures NoDuplicates(Run(order, ops))
    ensures forall x :: x in Run(order, ops) <==> x in LastRooms(rooms, ops)
    decreases |ops|
  {
    if ops == [] {
    } else {
      ApplyKeepsClean(order, ops[0]);
      assert forall i :: 0 <= i < |ops[1..]| ==> ops[1..][i] == ops[i + 1];
      RunsKeepOrder(Apply(order, ops[0]),
        if ops[0].Reconcile? || ops[0].Reset? then ops[0].roomIds else rooms, ops[1..]);
    }
  }
}
