/** Verified move of a device between rooms: one read, checks, one guarded write, one read back,
    with other writers free to act before and after every request. */
module RoomMove {
  import opened Common
  import opened Topology

  datatype Proposal = Proposal(deviceId: string, fromRoomId: string, toRoomId: string)

  // ----- Proposals

  predicate ContainsId(items: seq<Item>, id: string) {
    exists x :: x in items && x.id == id
  }

  /** The first item with an id. */
  function FindItem(items: seq<Item>, id: string): (r: Option<Item>)
    ensures r.Some? ==> r.value in items && r.value.id == id
    ensures r.None? ==> !ContainsId(items, id)
  {
    if items == [] then None else if items[0].id == id then Some(items[0]) else FindItem(items[1..], id)
  }

  /** It is the first: no earlier item has the id. */
  lemma {:induction false} FindsFirst(items: seq<Item>, k: nat)
    requires k < |items| && forall j :: 0 <= j < k ==> items[j].id != items[k].id
    ensures FindItem(items, items[k].id) == Some(items[k])
  {
    if k > 0 {
      FindsFirst(items[1..], k - 1);
    }
  }

  /** The first room whose children include the device. */
  function FindSource(rooms: seq<RoomMembership>, deviceId: string): (r: Option<RoomMembership>)
    ensures r.Some? ==> r.value in rooms && ContainsId(r.value.children, deviceId)
    ensures r.None? ==> forall m :: m in rooms ==> !ContainsId(m.children, deviceId)
  {
    if rooms == [] then None
    else if ContainsId(rooms[0].children, deviceId) then Some(rooms[0])
    else FindSource(rooms[1..], deviceId)
  }

  lemma {:induction false} FindsFirstSource(rooms: seq<RoomMembership>, deviceId: string, k: nat)
    requires k < |rooms| && ContainsId(rooms[k].children, deviceId)
    requires forall j :: 0 <= j < k ==> !ContainsId(rooms[j].children, deviceId)
    ensures FindSource(rooms, deviceId) == Some(rooms[k])
  {
    if k > 0 {
      FindsFirstSource(rooms[1..], deviceId, k - 1);
    }
  }

  function BuildProposal(view: Membership, deviceId: string, toRoomId: string): Option<Proposal> {
    var source := FindSource(view.rooms, deviceId);
    if (exists m :: m in view.rooms && m.room.id == toRoomId) && source.Some? && source.value.room.id != toRoomId then
      Some(Proposal(deviceId, source.value.room.id, toRoomId))
    else None
  }

  /** The device is in the source room, and both rooms exist. */
  predicate Movable(items: seq<Item>, p: Proposal) {
    var device := FindItem(items, p.deviceId);
    && device.Some? && device.value.parentId == Some(p.fromRoomId)
    && p.fromRoomId in RoomIds(items) && p.toRoomId in RoomIds(items)
  }

  ghost predicate UniqueIds(items: seq<Item>) {
    forall x, y :: x in items && y in items && x.id == y.id ==> x == y
  }

  lemma {:induction false} ChildrenMembers(items: seq<Item>, room: string)
    ensures forall x :: x in ChildrenOf(items, room) <==> x in items && IsChild(x, room)
  {
    if items == [] {
    } else {
      ChildrenMembers(items[1..], room);
      assert items == [items[0]] + items[1..];
    }
  }

  /** Every room of the view exists, and its children are devices with that parent. */
  lemma {:induction false} ViewRoom(items: seq<Item>, leq: Collation, m: RoomMembership)
    requires m in BuildMembership(items, leq).rooms
    ensures m.room.id in RoomIds(items)
    ensures forall x :: x in m.children ==> x in items && IsChild(x, m.room.id)
  {
    var rooms := Sort(Rooms(items), leq);
    var i :| 0 <= i < |rooms| && BuildMembership(items, leq).rooms[i] == m;
    SortedRoomIds(items, leq);
    SameMembers(ChildrenOf(items, m.room.id), m.children);
    ChildrenMembers(items, m.room.id);
  }

  lemma FindUnique(items: seq<Item>, x: Item)
    requires UniqueIds(items) && x in items
    ensures FindItem(items, x.id) == Some(x)
  {
    assert ContainsId(items, x.id);
  }

  /** A proposal moves a child of one existing room to another; with unique ids it is movable in the
      topology it was made from. */
  lemma {:induction false} ProposalIsMovable(items: seq<Item>, leq: Collation, deviceId: string, toRoomId: string)
    requires BuildProposal(BuildMembership(items, leq), deviceId, toRoomId).Some?
    ensures var p := BuildProposal(BuildMembership(items, leq), deviceId, toRoomId).value;
      && p.fromRoomId != p.toRoomId == toRoomId && p.deviceId == deviceId
      && p.fromRoomId in RoomIds(items) && p.toRoomId in RoomIds(items)
      && (UniqueIds(items) ==> Movable(items, p))
  {
    var rooms := BuildMembership(items, leq).rooms;
    var source := FindSource(rooms, deviceId).value;
    var target :| target in rooms && target.room.id == toRoomId;
    ViewRoom(items, leq, source);
    ViewRoom(items, leq, target);
    var x :| x in source.children && x.id == deviceId;
    if UniqueIds(items) {
      FindUnique(items, x);
    }
  }

  /** With unique ids, a proposal is offered exactly when the device is a child of an existing room and the
      other room exists, and it then starts from that room. */
  lemma {:induction false} ProposalOffered(items: seq<Item>, leq: Collation, deviceId: string, toRoomId: string)
    requires UniqueIds(items)
    ensures BuildProposal(BuildMembership(items, leq), deviceId, toRoomId).Some? <==>
      && toRoomId in RoomIds(items)
      && exists x :: x in items && IsAssigned(items, x, deviceId) && x.parentId.value != toRoomId
  {
    var view := BuildMembership(items, leq);
    var proposal := BuildProposal(view, deviceId, toRoomId);
    if proposal.Some? {
      ProposalIsMovable(items, leq, deviceId, toRoomId);
      var source := FindSource(view.rooms, deviceId).value;
      ViewRoom(items, leq, source);
      var x :| x in source.children && x.id == deviceId;
      assert IsAssigned(items, x, deviceId);
    }
    if toRoomId in RoomIds(items) {
      var target := ViewHasRoom(items, leq, toRoomId);
    }
    if x :| toRoomId in RoomIds(items) && x in items && IsAssigned(items, x, deviceId) && x.parentId.value != toRoomId {
      var m := ViewHasRoom(items, leq, x.parentId.value);
      ViewChild(items, leq, m, x);
      var source := FindSource(view.rooms, deviceId);
      assert source.Some?;
      ViewRoom(items, leq, source.value);
      var y :| y in source.value.children && y.id == deviceId;
      assert y == x;
    }
  }

  /** The item is the device, in an existing room. */
  predicate IsAssigned(items: seq<Item>, x: Item, deviceId: string) {
    x.id == deviceId && !x.kind.Room? && x.parentId.Some? && x.parentId.value in RoomIds(items)
  }

  lemma {:induction false} ViewHasRoom(items: seq<Item>, leq: Collation, id: string) returns (m: RoomMembership)
    requires id in RoomIds(items)
    ensures m in BuildMembership(items, leq).rooms && m.room.id == id
  {
    var rooms := Sort(Rooms(items), leq);
    var room :| room in items && room.kind.Room? && room.id == id;
    SameMembers(Rooms(items), rooms);
    var i :| 0 <= i < |rooms| && rooms[i] == room;
    m := BuildMembership(items, leq).rooms[i];
  }

  lemma {:induction false} ViewChild(items: seq<Item>, leq: Collation, m: RoomMembership, x: Item)
    requires m in BuildMembership(items, leq).rooms && x in items && IsChild(x, m.room.id)
    ensures x in m.children
  {
    ChildrenMembers(items, m.room.id);
    SameMembers(ChildrenOf(items, m.room.id), m.children);
  }

  // ----- The shared server

  /** What was sent to the server, what it did and which replies arrived, in order. */
  datatype Entry =
    | ReadServed(items: seq<Item>)
    | ReadDelivered(hash: Option<string>)
    | ReadFailed
    | MoveSent(proposal: Proposal)
    | MoveApplied(before: seq<Item>, proposal: Proposal)
    | MoveRefused
    | MoveAccepted
    | MoveFailed

  datatype Reply = Lost | Body(items: seq<Item>, hash: Option<string>)

  ghost predicate Injective(sha: seq<Item> -> string) {
    forall a, b :: sha(a) == sha(b) ==> a == b
  }

  /** The topology of the appliance and what has happened to it. */
  datatype Site = Site(topology: seq<Item>, log: seq<Entry>)

  /** A move arrives: with a guard it applies only while the hash still matches, without one always. What
      it leaves behind is up to the appliance. */
  function Deliver(
      site: Site, p: Proposal, guard: Option<string>, sha: seq<Item> -> string, result: seq<Item>): Site
  {
    if guard.None? || sha(site.topology) == guard.value then
      Site(result, site.log + [MoveApplied(site.topology, p)])
    else site.(log := site.log + [MoveRefused])
  }

  /** A read whose reply does not arrive, served or not. */
  ghost predicate LostRead(entries: seq<Entry>) {
    entries == [ReadFailed] || exists items :: entries == [ReadServed(items), ReadFailed]
  }

  /** What a read adds to the log. */
  ghost predicate ReadLogs(sha: seq<Item> -> string, entries: seq<Entry>, r: Reply) {
    match r
    case Lost => LostRead(entries)
    case Body(items, hash) =>
      entries == [ReadServed(items), ReadDelivered(hash)] && (hash.Some? ==> hash.value == sha(items))
  }

  /** What a guarded move does to the appliance: nothing, when it is lost or refused, or it applies to a
      topology with the guard's hash. */
  ghost predicate Answers(sha: seq<Item> -> string, done: seq<Entry>, p: Proposal, guard: string) {
    || done == [] || done == [MoveRefused]
    || exists before :: sha(before) == guard && done == [MoveApplied(before, p)]
  }

  /** What a guarded move adds to the log; only one that took effect is ever accepted. */
  ghost predicate MoveLogs(
      sha: seq<Item> -> string, entries: seq<Entry>, p: Proposal, guard: string, accepted: bool)
  {
    exists done ::
      && Answers(sha, done, p, guard)
      && entries == [MoveSent(p)] + done + [if accepted then MoveAccepted else MoveFailed]
      && (accepted ==> done != [] && done != [MoveRefused])
  }

  /** The appliance behind the admin API. Other writers change the topology at any time; a request can
      be lost on its way, a reply after its request was served, and a move can be refused for reasons of
      the appliance's own. */
  class Server {
    const sha: seq<Item> -> string
    var topology: seq<Item>
    var log: seq<Entry>

    constructor (sha: seq<Item> -> string, topology: seq<Item>)
      ensures this.sha == sha && this.topology == topology && log == []
    {
      this.sha, this.topology, log := sha, topology, [];
    }

    /** Any number of changes by others. */
    method Others()
      modifies this`topology
    {
      topology := *;
    }

    method GetNodes() returns (r: Reply)
      modifies this
      ensures old(log) <= log && ReadLogs(sha, log[|old(log)|..], r)
    {
      Others();
      if * {
        log := log + [ReadFailed];
        return Lost;
      }
      var served, hash := topology, Some(sha(topology));
      if * { hash := None; }
      Others();
      if * {
        log := log + [ReadServed(served), ReadFailed];
        return Lost;
      }
      log := log + [ReadServed(served), ReadDelivered(hash)];
      r := Body(served, hash);
    }

    method PutMove(proposal: Proposal, bodySha256: string) returns (accepted: bool)
      modifies this
      ensures old(log) <= log && MoveLogs(sha, log[|old(log)|..], proposal, bodySha256, accepted)
    {
      ghost var done: seq<Entry> := [];
      log := log + [MoveSent(proposal)];
      accepted := false;
      Others();
      if * {
        if * {
          log, done := log + [MoveRefused], [MoveRefused];
        } else {
          var result: seq<Item> := *;
          accepted := sha(topology) == bodySha256;
          done := [if accepted then MoveApplied(topology, proposal) else MoveRefused];
          var site := Deliver(Site(topology, log), proposal, Some(bodySha256), sha, result);
          topology, log := site.topology, site.log;
          Others();
          if * { accepted := false; }
        }
      }
      assert Answers(sha, done, proposal, bodySha256) && log == old(log) + [MoveSent(proposal)] + done;
      log := log + [if accepted then MoveAccepted else MoveFailed];
      assert log[|old(log)|..] == [MoveSent(proposal)] + done + [if accepted then MoveAccepted else MoveFailed];
    }
  }

  // ----- The client

  datatype Failure =
    | SameRoom | ReadLost | NoHash | DeviceGone | RoomGone | DeviceMoved | WriteFailed | ReadBackLost

  datatype Status = Confirmed | Conflict

  /** A receipt reports the room before, the proposed room and the room found afterwards. */
  datatype Outcome =
    | Failed(reason: Failure)
    | Receipt(status: Status, before: string, candidate: string, after: Option<string>)

  /** Failures reported before any write is sent. */
  predicate Early(reason: Failure) {
    reason != WriteFailed && reason != ReadBackLost
  }

  function RoomAfter(items: seq<Item>, deviceId: string): Option<string> {
    var device := FindItem(items, deviceId);
    if device.Some? then device.value.parentId else None
  }

  predicate RoomsExist(items: seq<Item>, p: Proposal) {
    p.fromRoomId in RoomIds(items) && p.toRoomId in RoomIds(items)
  }

  /** A delivered read with its hash. */
  function Read(sha: seq<Item> -> string, seen: seq<Item>): seq<Entry> {
    [ReadServed(seen), ReadDelivered(Some(sha(seen)))]
  }

  /** The same, and a move that was answered so. */
  function Moved(sha: seq<Item> -> string, seen: seq<Item>, p: Proposal, done: seq<Entry>, reply: Entry): seq<Entry> {
    Read(sha, seen) + [MoveSent(p)] + done + [reply]
  }

  /** The appliance's possible answers to a move guarded with the hash of `seen`. */
  ghost predicate AnswersSeen(done: seq<Entry>, seen: seq<Item>, p: Proposal) {
    done == [] || done == [MoveRefused] || done == [MoveApplied(seen, p)]
  }

  /** What a failure says about the requests of the run and the topology they showed. */
  ghost predicate FailureExplained(sha: seq<Item> -> string, p: Proposal, entries: seq<Entry>, reason: Failure) {
    match reason
    case SameRoom => false
    case ReadLost => LostRead(entries)
    case NoHash => exists seen :: entries == [ReadServed(seen), ReadDelivered(None)]
    case DeviceGone => exists seen :: entries == Read(sha, seen) && !ContainsId(seen, p.deviceId)
    case RoomGone =>
      exists seen :: entries == Read(sha, seen) && ContainsId(seen, p.deviceId) && !RoomsExist(seen, p)
    case DeviceMoved =>
      exists seen :: entries == Read(sha, seen) && ContainsId(seen, p.deviceId) && RoomsExist(seen, p)
        && RoomAfter(seen, p.deviceId) != Some(p.fromRoomId)
    case WriteFailed =>
      exists seen, done :: entries == Moved(sha, seen, p, done, MoveFailed)
        && Movable(seen, p) && AnswersSeen(done, seen, p)
    case ReadBackLost =>
      exists seen, rest :: entries == Moved(sha, seen, p, [MoveApplied(seen, p)], MoveAccepted) + rest
        && Movable(seen, p) && LostRead(rest)
  }

  /** A receipt: the move was sent from a topology fit for it, took effect on that very topology, and was
      accepted; it is confirmed exactly when the read after it showed the device in the target room. */
  ghost predicate ReceiptExplained(
      sha: seq<Item> -> string, p: Proposal, entries: seq<Entry>, receipt: Outcome, seen: seq<Item>,
      last: seq<Item>, hash: Option<string>)
    requires receipt.Receipt?
  {
    && entries == Moved(sha, seen, p, [MoveApplied(seen, p)], MoveAccepted) + [ReadServed(last), ReadDelivered(hash)]
    && Movable(seen, p)
    && receipt.before == p.fromRoomId && receipt.candidate == p.toRoomId
    && receipt.after == RoomAfter(last, p.deviceId)
    && (receipt.status == Confirmed <==> RoomAfter(last, p.deviceId) == Some(p.toRoomId))
  }

  /** The outcome of a run and the requests and replies it consisted of. */
  ghost predicate Explained(sha: seq<Item> -> string, p: Proposal, entries: seq<Entry>, outcome: Outcome) {
    if p.fromRoomId == p.toRoomId then outcome == Failed(SameRoom) && entries == []
    else if outcome.Failed? then FailureExplained(sha, p, entries, outcome.reason)
    else exists seen, last, hash :: ReceiptExplained(sha, p, entries, outcome, seen, last, hash)
  }

  /** One read, the checks, one guarded write, one read back. Under every interleaving with other writers
      and whatever is lost, the outcome is explained by what happened during the run. */
  method MoveDeviceVerified(server: Server, p: Proposal) returns (outcome: Outcome)
    requires Injective(server.sha)
    modifies server
    ensures old(server.log) <= server.log
    ensures Explained(server.sha, p, server.log[|old(server.log)|..], outcome)
  {
    ghost var start := server.log;
    if p.fromRoomId == p.toRoomId { return Failed(SameRoom); }
    var snapshot := server.GetNodes();
    ghost var read := server.log;
    if snapshot.Lost? { return Failed(ReadLost); }
    if snapshot.hash.None? { return Failed(NoHash); }
    ghost var seen := snapshot.items;
    assert read[|start|..] == Read(server.sha, seen);
    var device := FindItem(snapshot.items, p.deviceId);
    if device.None? { return Failed(DeviceGone); }
    if p.fromRoomId !in RoomIds(snapshot.items) || p.toRoomId !in RoomIds(snapshot.items) {
      return Failed(RoomGone);
    }
    if device.value.parentId != Some(p.fromRoomId) { return Failed(DeviceMoved); }
    var accepted := server.PutMove(p, snapshot.hash.value);
    ghost var written := server.log;
    ghost var done := MoveAnswered(server.sha, written[|read|..], p, seen, accepted);
    MoveAdds(start, read, written, server.sha, seen, p, done, accepted);
    if !accepted { return Failed(WriteFailed); }
    var readBack := server.GetNodes();
    Continues(start, written, server.log);
    if readBack.Lost? { return Failed(ReadBackLost); }
    var after := RoomAfter(readBack.items, p.deviceId);
    outcome := Receipt(if after == Some(p.toRoomId) then Confirmed else Conflict, p.fromRoomId, p.toRoomId, after);
    assert ReceiptExplained(
      server.sha, p, server.log[|start|..], outcome, seen, readBack.items, readBack.hash);
  }

  /** Hash equality pins the topology that took the move to the one that was read. */
  lemma {:induction false} MoveAnswered(
      sha: seq<Item> -> string, entries: seq<Entry>, p: Proposal, seen: seq<Item>, accepted: bool)
      returns (done: seq<Entry>)
    requires Injective(sha) && MoveLogs(sha, entries, p, sha(seen), accepted)
    ensures entries == [MoveSent(p)] + done + [if accepted then MoveAccepted else MoveFailed]
    ensures AnswersSeen(done, seen, p) && (accepted ==> done == [MoveApplied(seen, p)])
  {
    done :| && Answers(sha, done, p, sha(seen))
            && entries == [MoveSent(p)] + done + [if accepted then MoveAccepted else MoveFailed]
            && (accepted ==> done != [] && done != [MoveRefused]);
  }

  lemma Continues(start: seq<Entry>, before: seq<Entry>, log: seq<Entry>)
    requires start <= before <= log
    ensures log[|start|..] == before[|start|..] + log[|before|..]
  {
  }

  lemma {:induction false} MoveAdds(
      start: seq<Entry>, read: seq<Entry>, written: seq<Entry>, sha: seq<Item> -> string, seen: seq<Item>,
      p: Proposal, done: seq<Entry>, accepted: bool)
    requires start <= read <= written && read[|start|..] == Read(sha, seen)
    requires written[|read|..] == [MoveSent(p)] + done + [if accepted then MoveAccepted else MoveFailed]
    ensures written[|start|..] == Moved(sha, seen, p, done, if accepted then MoveAccepted else MoveFailed)
  {
    Continues(start, read, written);
  }

  // ----- What an explained outcome is worth

  ghost function Applications(entries: seq<Entry>): nat {
    if entries == [] then 0 else (if entries[0].MoveApplied? then 1 else 0) + Applications(entries[1..])
  }

  ghost function Sends(entries: seq<Entry>): nat {
    if entries == [] then 0 else (if entries[0].MoveSent? then 1 else 0) + Sends(entries[1..])
  }

  lemma {:induction false} CountsConcat(a: seq<Entry>, b: seq<Entry>)
    ensures Applications(a + b) == Applications(a) + Applications(b)
    ensures Sends(a + b) == Sends(a) + Sends(b)
  {
    if a == [] {
      assert a + b == b;
    } else {
      assert (a + b)[1..] == a[1..] + b;
      CountsConcat(a[1..], b);
    }
  }

  /** Moves are only sent as proposed, at most one is, and it takes effect at most once, on a topology fit
      for it. */
  ghost predicate OneMove(entries: seq<Entry>, p: Proposal, sends: nat) {
    && Sends(entries) == sends <= 1 && Applications(entries) <= sends
    && (forall e :: e in entries && e.MoveSent? ==> e.proposal == p)
    && (forall e :: e in entries && e.MoveApplied? ==> e.proposal == p && Movable(e.before, p))
  }

  /** Safety: an early failure sent nothing, any other outcome one move. */
  lemma {:induction false} ExplainedIsSafe(
      sha: seq<Item> -> string, p: Proposal, entries: seq<Entry>, outcome: Outcome)
    requires Explained(sha, p, entries, outcome)
    ensures OneMove(entries, p, if outcome.Failed? && Early(outcome.reason) then 0 else 1)
  {
    match outcome
    case Failed(WriteFailed) =>
      var seen, done :| entries == Moved(sha, seen, p, done, MoveFailed)
        && Movable(seen, p) && AnswersSeen(done, seen, p);
      MovedOnce(sha, seen, p, done, MoveFailed);
    case Failed(ReadBackLost) =>
      var seen, rest :| entries == Moved(sha, seen, p, [MoveApplied(seen, p)], MoveAccepted) + rest
        && Movable(seen, p) && LostRead(rest);
      AcceptedOnce(sha, seen, p, rest);
    case Receipt(_, _, _, _) =>
      var seen, last, hash :| ReceiptExplained(sha, p, entries, outcome, seen, last, hash);
      AcceptedOnce(sha, seen, p, [ReadServed(last), ReadDelivered(hash)]);
    case _ => EarlyIsSafe(sha, p, entries, outcome);
  }

  lemma {:induction false} EarlyIsSafe(
      sha: seq<Item> -> string, p: Proposal, entries: seq<Entry>, outcome: Outcome)
    requires Explained(sha, p, entries, outcome) && outcome.Failed? && Early(outcome.reason)
    ensures OneMove(entries, p, 0)
  {
    NothingSent(sha, p, entries, outcome);
    NoMovesCount(entries);
  }

  lemma {:induction false} NothingSent(
      sha: seq<Item> -> string, p: Proposal, entries: seq<Entry>, outcome: Outcome)
    requires Explained(sha, p, entries, outcome) && outcome.Failed? && Early(outcome.reason)
    ensures NoMoves(entries)
  {
  }

  ghost predicate NoMoves(entries: seq<Entry>) {
    forall e :: e in entries ==> !e.MoveSent? && !e.MoveApplied?
  }

  lemma {:induction false} NoMovesCount(entries: seq<Entry>)
    requires NoMoves(entries)
    ensures Sends(entries) == 0 && Applications(entries) == 0
  {
    if entries == [] {
    } else {
      NoMovesCount(entries[1..]);
    }
  }

  /** Reads change nothing about what was sent and applied. */
  lemma ReadsAdd(entries: seq<Entry>, more: seq<Entry>, p: Proposal, sends: nat)
    requires OneMove(entries, p, sends) && NoMoves(more)
    ensures OneMove(entries + more, p, sends)
  {
    NoMovesCount(more);
    CountsConcat(entries, more);
  }

  lemma {:induction false} AcceptedOnce(sha: seq<Item> -> string, seen: seq<Item>, p: Proposal, rest: seq<Entry>)
    requires Movable(seen, p) && NoMoves(rest)
    ensures OneMove(Moved(sha, seen, p, [MoveApplied(seen, p)], MoveAccepted) + rest, p, 1)
  {
    MovedOnce(sha, seen, p, [MoveApplied(seen, p)], MoveAccepted);
    ReadsAdd(Moved(sha, seen, p, [MoveApplied(seen, p)], MoveAccepted), rest, p, 1);
  }

  lemma {:induction false} MovedOnce(
      sha: seq<Item> -> string, seen: seq<Item>, p: Proposal, done: seq<Entry>, reply: Entry)
    requires Movable(seen, p) && AnswersSeen(done, seen, p) && (reply == MoveAccepted || reply == MoveFailed)
    ensures OneMove(Moved(sha, seen, p, done, reply), p, 1)
  {
    CountsConcat(Read(sha, seen) + [MoveSent(p)] + done, [reply]);
    CountsConcat(Read(sha, seen) + [MoveSent(p)], done);
    CountsConcat(Read(sha, seen), [MoveSent(p)]);
  }

  /** Liveness: a delivered read with its hash, of a topology fit for the proposal, leads to the move; and an
      accepted move with a delivered read-back to a receipt. */
  lemma {:induction false} FitMoveIsSent(
      sha: seq<Item> -> string, p: Proposal, entries: seq<Entry>, outcome: Outcome, seen: seq<Item>)
    requires Explained(sha, p, entries, outcome) && p.fromRoomId != p.toRoomId
    requires Read(sha, seen) <= entries && Movable(seen, p)
    ensures |entries| > 2 && entries[2] == MoveSent(p)
    ensures MoveAccepted in entries && entries[|entries| - 1].ReadDelivered? <==> outcome.Receipt?
  {
    OutcomeShape(sha, p, entries, outcome);
    assert entries[0] == ReadServed(seen);
  }

  /** How the requests and replies of a run show its outcome. */
  ghost predicate Shows(p: Proposal, entries: seq<Entry>, outcome: Outcome) {
    match outcome
    case Failed(SameRoom) => entries == []
    case Failed(ReadLost) => 1 <= |entries| <= 2 && entries[|entries| - 1] == ReadFailed
    case Failed(NoHash) => |entries| == 2 && entries[1] == ReadDelivered(None)
    case Failed(WriteFailed) => |entries| >= 4 && SentMove(entries, p) && entries[|entries| - 1] == MoveFailed
    case Failed(ReadBackLost) =>
      |entries| >= 6 && SentMove(entries, p) && entries[4] == MoveAccepted && entries[|entries| - 1] == ReadFailed
    case Receipt(_, _, _, after) =>
      && |entries| == 7 && SentMove(entries, p) && entries[4] == MoveAccepted
      && entries[5].ReadServed? && entries[6].ReadDelivered? && after == RoomAfter(entries[5].items, p.deviceId)
    case Failed(reason) =>
      && |entries| == 2 && entries[0].ReadServed? && entries[1].ReadDelivered? && entries[1].hash.Some?
      && !Movable(entries[0].items, p)
      && (reason == DeviceGone <==> !ContainsId(entries[0].items, p.deviceId))
      && (reason == RoomGone <==> ContainsId(entries[0].items, p.deviceId) && !RoomsExist(entries[0].items, p))
  }

  ghost predicate SentMove(entries: seq<Entry>, p: Proposal)
    requires |entries| >= 4
  {
    entries[0].ReadServed? && Movable(entries[0].items, p) && entries[2] == MoveSent(p)
  }

  lemma {:induction false} OutcomeShape(
      sha: seq<Item> -> string, p: Proposal, entries: seq<Entry>, outcome: Outcome)
    requires Explained(sha, p, entries, outcome)
    ensures Shows(p, entries, outcome)
    ensures MoveAccepted in entries ==> outcome.Receipt? || outcome == Failed(ReadBackLost)
  {
    match outcome
    case Failed(WriteFailed) =>
      var seen, done :| entries == Moved(sha, seen, p, done, MoveFailed)
        && Movable(seen, p) && AnswersSeen(done, seen, p);
      MovedAt(sha, seen, p, done, MoveFailed);
    case Failed(ReadBackLost) =>
      var seen, rest :| entries == Moved(sha, seen, p, [MoveApplied(seen, p)], MoveAccepted) + rest
        && Movable(seen, p) && LostRead(rest);
      MovedAt(sha, seen, p, [MoveApplied(seen, p)], MoveAccepted);
    case Receipt(_, _, _, _) => ReceiptShape(sha, p, entries, outcome);
    case _ => EarlyShape(sha, p, entries, outcome);
  }

  lemma {:induction false} ReceiptShape(
      sha: seq<Item> -> string, p: Proposal, entries: seq<Entry>, outcome: Outcome)
    requires Explained(sha, p, entries, outcome) && outcome.Receipt?
    ensures Shows(p, entries, outcome)
  {
    var seen, last, hash :| ReceiptExplained(sha, p, entries, outcome, seen, last, hash);
    MovedAt(sha, seen, p, [MoveApplied(seen, p)], MoveAccepted);
  }

  lemma {:induction false} EarlyShape(
      sha: seq<Item> -> string, p: Proposal, entries: seq<Entry>, outcome: Outcome)
    requires Explained(sha, p, entries, outcome) && outcome.Failed? && Early(outcome.reason)
    ensures Shows(p, entries, outcome) && MoveAccepted !in entries
  {
  }

  lemma {:induction false} MovedAt(
      sha: seq<Item> -> string, seen: seq<Item>, p: Proposal, done: seq<Entry>, reply: Entry)
    requires Movable(seen, p) && AnswersSeen(done, seen, p) && (reply == MoveAccepted || reply == MoveFailed)
    ensures var entries := Moved(sha, seen, p, done, reply);
      && |entries| == 4 + |done| && SentMove(entries, p) && entries[|entries| - 1] == reply
      && (reply == MoveFailed ==> MoveAccepted !in entries)
  {
  }

  /** The requests and replies of a run admit one outcome only: each reason is reported exactly on its cause. */
  lemma {:induction false} ExplainedOnce(
      sha: seq<Item> -> string, p: Proposal, entries: seq<Entry>, one: Outcome, two: Outcome)
    requires Explained(sha, p, entries, one) && Explained(sha, p, entries, two)
    ensures one == two
  {
    OutcomeShape(sha, p, entries, one);
    OutcomeShape(sha, p, entries, two);
  }

  // ----- What the guard is for

  /** Another writer gives the device another parent. */
  function Reparent(items: seq<Item>, id: string, parent: string): seq<Item> {
    if items == [] then []
    else if items[0].id == id then [items[0].(parentId := Some(parent))] + items[1..]
    else [items[0]] + Reparent(items[1..], id, parent)
  }

  lemma {:induction false} ReparentFinds(items: seq<Item>, id: string, parent: string)
    requires FindItem(items, id).Some?
    ensures FindItem(Reparent(items, id, parent), id)
      == Some(FindItem(items, id).value.(parentId := Some(parent)))
  {
    if items[0].id == id {
    } else {
      ReparentFinds(items[1..], id, parent);
    }
  }

  /** An illustration of what MoveDeviceVerified owes to the hash. The client's checks alone do not hold at
      the moment of the write: after the read another writer moves the device, and an unguarded move still
      takes effect, on a topology in which the device has left the source room. The hash refuses that run. */
  lemma {:induction false} UnguardedMoveMisapplies(
      sha: seq<Item> -> string, seen: seq<Item>, p: Proposal, result: seq<Item>)
    requires Injective(sha) && Movable(seen, p) && p.fromRoomId != p.toRoomId
    ensures var later := Reparent(seen, p.deviceId, p.toRoomId);
      var site := Site(later, [ReadServed(seen), MoveSent(p)]);
      && !Movable(later, p)
      && Deliver(site, p, None, sha, result).log == [ReadServed(seen), MoveSent(p), MoveApplied(later, p)]
      && Deliver(site, p, Some(sha(seen)), sha, result).log == [ReadServed(seen), MoveSent(p), MoveRefused]
  {
    ReparentFinds(seen, p.deviceId, p.toRoomId);
  }
}
