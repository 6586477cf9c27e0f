/** The server side of a routed live stream between two mailboxes: it announces the
    stream to both participants by letter and then waits for each to join. */
module LiveStreams {
  import opened Wrappers
  import opened Exceptions
  import opened Bytes
  import opened Letters
  import opened Mailboxes
  import opened PostOffices
  import opened Messages

  /** A participant's socket, handed over when it joins. */
  type SocketId = nat

  /** The announcement letter for one participant. */
  function Announcement(p: string, payload: ByteArray): Letter
  {
    Letter(Some(OfficeAddress), Some(p), Some(payload))
  }

  /** The announcements that sending to each of `ps` in turn puts in box `id`. */
  function Announced(ps: seq<string>, id: string, payload: ByteArray): seq<Letter>
  {
    if ps == [] then []
    else Announced(ps[..|ps| - 1], id, payload)
         + (if ps[|ps| - 1] == id then [Announcement(id, payload)] else [])
  }

  /** One more participant adds at most one announcement, to its own box. */
  lemma AnnouncedStep(ps: seq<string>, i: nat, id: string, payload: ByteArray)
    requires i < |ps|
    ensures Announced(ps[..i + 1], id, payload)
            == Announced(ps[..i], id, payload) + (if ps[i] == id then [Announcement(id, payload)] else [])
  {
    assert ps[..i + 1][..i] == ps[..i];
  }

  /** Each of two distinct participants receives exactly one announcement and nobody
      else receives any; a participant paired with itself receives two. */
  lemma AnnouncedToPair(requester: string, partner: string, id: string, payload: ByteArray)
    ensures requester != partner && (id == requester || id == partner) ==>
              Announced([requester, partner], id, payload) == [Announcement(id, payload)]
    ensures requester == partner == id ==>
              Announced([requester, partner], id, payload) == [Announcement(id, payload), Announcement(id, payload)]
    ensures id != requester && id != partner ==> Announced([requester, partner], id, payload) == []
  {
    var ps := [requester, partner];
    assert ps[..1] == [requester];
    assert [requester][..0] == [];
    assert Announced([requester], id, payload) == (if requester == id then [Announcement(id, payload)] else []);
    assert Announced(ps, id, payload) ==
             Announced([requester], id, payload) + (if partner == id then [Announcement(id, payload)] else []);
  }

  /** The three fields of the announcement are never null, so marshal always returns. */
  lemma MarshalledNonNull(a: string, b: string, u: Uuid)
    ensures Marshalled(Fields(Some(a), Some(b), Some(u))).Success?
  {
  }

  /** The payload of both announcements: the marshalled (id, requester, partner). */
  function Payload(requester: string, partner: string, u: Uuid): (p: ByteArray)
    ensures Marshalled(Fields(Some(requester), Some(partner), Some(u))) == Success(p)
  {
    MarshalledNonNull(requester, partner, u);
    Marshalled(Fields(Some(requester), Some(partner), Some(u))).value
  }

  class ServerRoutedLiveStreamHandler {
    var participants: seq<string>
    const sockets: array<Option<SocketId>>
    var awaiting: set<string>
    const liveStreamId: Uuid

    ghost predicate Valid()
      reads this
    {
      sockets.Length == 2 && |awaiting| <= 2
    }

    /** The state the constructor sets up before announcing the stream. */
    constructor (requester: string, partner: string, liveStreamId: Uuid)
      ensures participants == [requester, partner] && awaiting == {requester, partner}
      ensures this.liveStreamId == liveStreamId
      ensures fresh(sockets) && sockets[..] == [None, None]
      ensures Valid()
    {
      participants := [requester, partner];
      awaiting := {requester, partner};
      this.liveStreamId := liveStreamId;
      sockets := new Option<SocketId>[2](_ => None);
    }

    /** joinLiveStream: an id not awaited is UnexpectedParticipant with no change;
        otherwise the id stops being awaited and the socket goes to index |awaiting|-1
        of what remains; the join that empties `awaiting` indexes -1 and fails with
        ArrayIndexOutOfBounds after the id was removed. When it returns, it returns
        whether someone is still awaited. */
    method JoinLiveStream(id: string, s: SocketId) returns (r: Result<bool, Exception>)
      requires Valid()
      modifies this, sockets
      ensures Valid()
      ensures participants == old(participants)
      ensures id !in old(awaiting) ==>
                r == Failure(UnexpectedParticipant) && awaiting == old(awaiting) && sockets[..] == old(sockets[..])
      ensures id in old(awaiting) ==> awaiting == old(awaiting) - {id}
      ensures id in old(awaiting) && |awaiting| == 0 ==>
                r == Failure(ArrayIndexOutOfBounds) && sockets[..] == old(sockets[..])
      ensures id in old(awaiting) && |awaiting| > 0 ==>
                r == Success(|awaiting| > 0) && sockets[..] == old(sockets[..])[|awaiting| - 1 := Some(s)]
    {
      if id !in awaiting {
        return Failure(UnexpectedParticipant);
      }
      awaiting := awaiting - {id};
      var index := |awaiting| - 1;
      if index < 0 {
        return Failure(ArrayIndexOutOfBounds);
      }
      sockets[index] := Some(s);
      r := Success(|awaiting| > 0);
    }
  }

  /** The length of the longest prefix of `ps` whose every name is in `ids`. */
  function Deliverable(ps: seq<string>, ids: set<string>): (n: nat)
    ensures n <= |ps|
    ensures forall i :: 0 <= i < n ==> ps[i] in ids
    ensures n < |ps| ==> ps[n] !in ids
  {
    if ps == [] || ps[0] !in ids then 0 else 1 + Deliverable(ps[1..], ids)
  }

  /** Within the deliverable prefix, the next name decides whether it goes on. */
  lemma DeliverableAt(ps: seq<string>, ids: set<string>, i: nat)
    requires i <= Deliverable(ps, ids) && i < |ps|
    ensures ps[i] in ids <==> i < Deliverable(ps, ids)
  {
  }

  /** One announcement: the office's letter to `p` goes into p's box, if p has one; no
      other box and no lock changes. */
  method AnnounceTo(po: PostOffice, p: string, payload: ByteArray) returns (r: Outcome<Exception>)
    requires po.Valid()
    modifies po.mailboxes.Values
    ensures po.Valid() && po.mailboxes == old(po.mailboxes)
    ensures r == Pass <==> p in po.mailboxes
    ensures r != Pass ==> r == Fail(NonExistentMailbox)
    ensures forall k :: k in po.mailboxes ==>
              po.mailboxes[k].inbox
              == old(po.mailboxes[k].inbox) + (if p == k then [Announcement(k, payload)] else [])
              && po.mailboxes[k].lock == old(po.mailboxes[k].lock)
              && po.mailboxes[k].lockHolder == old(po.mailboxes[k].lockHolder)
  {
    r := po.SendLetter(Announcement(p, payload));
    forall k | k in po.mailboxes && k != p
      ensures po.mailboxes[k] !in (if p in po.mailboxes then {po.mailboxes[p]} else {})
    {
      if p in po.mailboxes {
        assert po.mailboxes[k].owner != po.mailboxes[p].owner;
      }
    }
  }

  /** Every box in `boxes` holds what it held in `start` followed by the announcements
      to `ps`. */
  ghost predicate Holds(boxes: map<string, Mailbox>, start: map<string, seq<Letter>>,
                        ps: seq<string>, payload: ByteArray)
    reads boxes.Values
  {
    forall k :: k in boxes ==> k in start && boxes[k].inbox == start[k] + Announced(ps, k, payload)
  }

  /** One turn of the announcement loop: participant `i` gets its letter when it has a
      box, which extends every box's announcements from `ps[..i]` to `ps[..i + 1]`;
      otherwise nothing changes and the turn fails with NonExistentMailbox. */
  method AnnounceAt(po: PostOffice, ps: seq<string>, i: nat, payload: ByteArray,
                    ghost start: map<string, seq<Letter>>) returns (r: Outcome<Exception>)
    requires po.Valid() && i < |ps|
    requires Holds(po.mailboxes, start, ps[..i], payload)
    modifies po.mailboxes.Values
    ensures po.Valid() && po.mailboxes == old(po.mailboxes)
    ensures r == Pass <==> ps[i] in po.mailboxes
    ensures r != Pass ==> r == Fail(NonExistentMailbox)
    ensures r == Pass ==> Holds(po.mailboxes, start, ps[..i + 1], payload)
    ensures r != Pass ==> Holds(po.mailboxes, start, ps[..i], payload)
    ensures forall k :: k in po.mailboxes ==>
              po.mailboxes[k].lock == old(po.mailboxes[k].lock)
              && po.mailboxes[k].lockHolder == old(po.mailboxes[k].lockHolder)
  {
    r := AnnounceTo(po, ps[i], payload);
    if r == Pass {
      forall k | k in po.mailboxes
        ensures po.mailboxes[k].inbox == start[k] + Announced(ps[..i + 1], k, payload)
      {
        AnnouncedStep(ps, i, k, payload);
      }
    }
  }

  /** The announcement loop: one letter from the office to each participant in turn,
      stopping at the first one without a box, which is NonExistentMailbox. */
  method Announce(po: PostOffice, ps: seq<string>, payload: ByteArray) returns (r: Outcome<Exception>)
    requires po.Valid()
    modifies po.mailboxes.Values
    ensures po.Valid() && po.mailboxes == old(po.mailboxes)
    ensures r == Pass <==> Deliverable(ps, po.mailboxes.Keys) == |ps|
    ensures r != Pass ==> r == Fail(NonExistentMailbox)
    ensures forall k :: k in po.mailboxes ==>
              po.mailboxes[k].inbox == old(po.mailboxes[k].inbox)
                                       + Announced(ps[..Deliverable(ps, po.mailboxes.Keys)], k, payload)
              && po.mailboxes[k].lock == old(po.mailboxes[k].lock)
              && po.mailboxes[k].lockHolder == old(po.mailboxes[k].lockHolder)
  {
    ghost var n := Deliverable(ps, po.mailboxes.Keys);
    ghost var boxes := po.mailboxes;
    ghost var start := map k | k in boxes :: boxes[k].inbox;
    r := Pass;
    var i := 0;
    while i < |ps|
      invariant 0 <= i <= n && r == Pass
      invariant po.Valid() && po.mailboxes == boxes
      invariant Holds(boxes, start, ps[..i], payload)
      invariant forall k :: k in boxes ==>
                  boxes[k].lock == old(boxes[k].lock) && boxes[k].lockHolder == old(boxes[k].lockHolder)
    {
      DeliverableAt(ps, boxes.Keys, i);
      r := AnnounceAt(po, ps, i, payload, start);
      if r.Fail? {
        break;
      }
      assert Holds(boxes, start, ps[..i + 1], payload);
      i := i + 1;
    }
    assert i == n && (r == Pass ==> n == |ps| && ps[..n] == ps);
  }

  /** The constructor: NonExistentMailbox, before any letter, when the partner has no
      box; otherwise one letter from the office to the requester and then one to the
      partner, each carrying the marshalled (id, requester, partner); the requester's
      missing box fails the first send. */
  method Open(requester: string, partner: string, po: PostOffice, liveStreamId: Uuid)
    returns (r: Result<ServerRoutedLiveStreamHandler, Exception>)
    requires po.Valid()
    modifies po.mailboxes.Values
    ensures po.Valid() && po.mailboxes == old(po.mailboxes)
    ensures forall k :: k in po.mailboxes ==>
              po.mailboxes[k].lock == old(po.mailboxes[k].lock)
              && po.mailboxes[k].lockHolder == old(po.mailboxes[k].lockHolder)
    ensures partner !in po.mailboxes || requester !in po.mailboxes ==>
              r == Failure(NonExistentMailbox)
              && forall k :: k in po.mailboxes ==> po.mailboxes[k].inbox == old(po.mailboxes[k].inbox)
    ensures partner in po.mailboxes && requester in po.mailboxes ==>
              r.Success? && fresh(r.value) && r.value.Valid()
              && r.value.participants == [requester, partner]
              && r.value.awaiting == {requester, partner}
              && r.value.liveStreamId == liveStreamId
              && forall k :: k in po.mailboxes ==>
                   po.mailboxes[k].inbox == old(po.mailboxes[k].inbox)
                                            + Announced([requester, partner], k, Payload(requester, partner, liveStreamId))
  {
    if !po.MailboxExists(partner) {
      return Failure(NonExistentMailbox);
    }
    var h := new ServerRoutedLiveStreamHandler(requester, partner, liveStreamId);
    var lsm := new LiveStreamMessage(Some(liveStreamId), Some(h.participants[0]), Some(h.participants[1]));
    var marshalled := lsm.Marshal();
    var payload := Payload(requester, partner, liveStreamId);
    assert marshalled == Success(payload);
    var ps := h.participants;
    ghost var n := Deliverable(ps, po.mailboxes.Keys);
    assert requester in po.mailboxes ==> n == 2 && ps[..n] == ps;
    assert requester !in po.mailboxes ==> n == 0 && ps[..n] == [];
    var sent := Announce(po, ps, payload);
    if sent.Fail? {
      return Failure(sent.error);
    }
    r := Success(h);
  }

  /** Two participants join once each: the first join is told someone is still
      awaited, the second indexes -1 and fails, and a repeated join is unexpected. */
  method JoinBoth(requester: string, partner: string, id: Uuid, s1: SocketId, s2: SocketId, s3: SocketId)
    returns (first: Result<bool, Exception>, second: Result<bool, Exception>, again: Result<bool, Exception>, slot0: Option<SocketId>)
    requires requester != partner
    ensures first == Success(true) && slot0 == Some(s1)
    ensures second == Failure(ArrayIndexOutOfBounds)
    ensures again == Failure(UnexpectedParticipant)
  {
    var h := new ServerRoutedLiveStreamHandler(requester, partner, id);
    first := h.JoinLiveStream(requester, s1);
    slot0 := h.sockets[0];
    second := h.JoinLiveStream(partner, s2);
    again := h.JoinLiveStream(requester, s3);
  }

  /** joinLiveStream never returns false: every join either finds someone still
      awaited or fails. */
  method NeverFalse(h: ServerRoutedLiveStreamHandler, id: string, s: SocketId) returns (r: Result<bool, Exception>)
    requires h.Valid()
    modifies h, h.sockets
    ensures r != Success(false)
  {
    r := h.JoinLiveStream(id, s);
  }
}
