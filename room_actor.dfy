/**
 * The per-room actor: an insertion-ordered map from live sockets to identities, the
 * handshake that binds a socket to a user, the presence snapshot broadcast after every
 * bind and close, and the internal `/broadcast` ingress. The host runs one room's event
 * handlers one at a time, so the handlers are sequential methods on one object. Sockets
 * are numbered as they are accepted; what a socket is sent is appended to its outbox.
 */
module RoomActor {
  import opened Wrappers
  import opened JsStrings
  import opened Json
  import opened OrderedMaps
  import opened Schemas
  import opened ServerMessages

  type SocketId = nat

  /** The sentinel identity of a socket that has not said hello yet. */
  const PENDING_ID: string := "pending"
  const PENDING: Presence := Presence(PENDING_ID, "Pending")

  const BAD_FORMAT: string := "Bad message format (expected JSON)"
  const ALREADY_JOINED: string := "Already joined"
  const EXPECTED_HELLO: string := "Expected {kind:'hello', user:{userId, displayName}} as first message"

  datatype ApiError = ApiError(code: string, message: string)

  /** An HTTP response of the actor: its status and, for a failure, its error body. */
  datatype Response = Response(status: nat, error: Option<ApiError>)

  const NO_CONTENT: Response := Response(204, None)
  const INVALID_BROADCAST: Response := Response(400, Some(ApiError("VALIDATION_ERROR", "Invalid broadcast message")))
  const NOT_FOUND: Response := Response(404, Some(ApiError("NOT_FOUND", "Not found")))

  // ----- the presence snapshot

  function UserIds(ps: seq<Presence>): set<string> {
    set i | 0 <= i < |ps| :: ps[i].userId
  }

  /** The users a snapshot lists for the identities `ps`, taken in map order: pending
      sockets are skipped, and a userId seen earlier wins over a later one. */
  function Snapshot(ps: seq<Presence>): (r: seq<Presence>)
    ensures |r| <= |ps|
    decreases |ps|
  {
    if ps == [] then []
    else
      var prior := Snapshot(ps[..|ps| - 1]);
      var p := ps[|ps| - 1];
      if p.userId == PENDING_ID || p.userId in UserIds(prior) then prior else prior + [p]
  }

  /** The position of the first identity in `ps` with this userId. */
  function FirstIndex(ps: seq<Presence>, uid: string): (i: nat)
    requires uid in UserIds(ps)
    ensures i < |ps| && ps[i].userId == uid
    ensures forall j :: 0 <= j < i ==> ps[j].userId != uid
  {
    if ps[0].userId == uid then 0
    else
      assert uid in UserIds(ps[1..]) by {
        var k :| 0 <= k < |ps| && ps[k].userId == uid;
        assert ps[1..][k - 1] == ps[k];
      }
      1 + FirstIndex(ps[1..], uid)
  }

  lemma FirstIndexOfPrefix(ps: seq<Presence>, uid: string)
    requires ps != [] && uid in UserIds(ps[..|ps| - 1])
    ensures uid in UserIds(ps)
    ensures FirstIndex(ps, uid) == FirstIndex(ps[..|ps| - 1], uid)
  {
    var pre := ps[..|ps| - 1];
    var b := FirstIndex(pre, uid);
    assert ps[b] == pre[b];
    assert uid in UserIds(ps);
  }

  lemma UserIdsOfAppend(ps: seq<Presence>, p: Presence)
    ensures UserIds(ps + [p]) == UserIds(ps) + {p.userId}
  {
    var qs := ps + [p];
    forall uid | uid in UserIds(qs) ensures uid in UserIds(ps) + {p.userId} {
      var k :| 0 <= k < |qs| && qs[k].userId == uid;
      if k < |ps| { assert qs[k] == ps[k]; }
    }
    forall uid | uid in UserIds(ps) ensures uid in UserIds(qs) {
      var k :| 0 <= k < |ps| && ps[k].userId == uid;
      assert qs[k] == ps[k];
    }
    assert qs[|ps|] == p;
  }

  /** Each entry of `r` is bound, and is the first identity in `ps` with its userId. */
  ghost predicate EntriesFirstSeen(ps: seq<Presence>, r: seq<Presence>) {
    forall k :: 0 <= k < |r| ==>
      r[k].userId != PENDING_ID && r[k].userId in UserIds(ps)
      && r[k] == ps[FirstIndex(ps, r[k].userId)]
  }

  /** Every bound userId of `ps` is listed in `r`. */
  ghost predicate ListsAllBound(ps: seq<Presence>, r: seq<Presence>) {
    forall i :: 0 <= i < |ps| && ps[i].userId != PENDING_ID ==> ps[i].userId in UserIds(r)
  }

  /** The entries of `r` are ordered by where their userId first occurs in `ps`. */
  ghost predicate InFirstSeenOrder(ps: seq<Presence>, r: seq<Presence>) {
    forall k, l :: 0 <= k < l < |r| ==>
      r[k].userId in UserIds(ps) && r[l].userId in UserIds(ps)
      && FirstIndex(ps, r[k].userId) < FirstIndex(ps, r[l].userId)
  }

  /** What a snapshot means, independently of how it is built: it lists no pending
      identity; each entry is the first identity in map order with its userId; every
      bound userId is listed; and entries are ordered by where their userId first
      occurs (so no userId is listed twice). */
  lemma {:induction false} SnapshotFirstSeen(ps: seq<Presence>)
    ensures var r := Snapshot(ps);
      && (forall k :: 0 <= k < |r| ==>
            r[k].userId != PENDING_ID && r[k].userId in UserIds(ps)
            && r[k] == ps[FirstIndex(ps, r[k].userId)])
      && (forall i :: 0 <= i < |ps| && ps[i].userId != PENDING_ID ==> ps[i].userId in UserIds(r))
      && (forall k, l :: 0 <= k < l < |r| ==>
            FirstIndex(ps, r[k].userId) < FirstIndex(ps, r[l].userId))
  {
    SnapshotFirstSeenBy(ps);
    var r := Snapshot(ps);
    assert EntriesFirstSeen(ps, r) && ListsAllBound(ps, r) && InFirstSeenOrder(ps, r);
  }

  lemma {:induction false} SnapshotFirstSeenBy(ps: seq<Presence>)
    ensures EntriesFirstSeen(ps, Snapshot(ps))
    ensures ListsAllBound(ps, Snapshot(ps))
    ensures InFirstSeenOrder(ps, Snapshot(ps))
    decreases |ps|
  {
    if ps != [] {
      var pre := ps[..|ps| - 1];
      var p := ps[|ps| - 1];
      SnapshotFirstSeenBy(pre);
      assert pre + [p] == ps;
      PriorStillFirstSeen(pre, p, Snapshot(pre));
      if p.userId == PENDING_ID || p.userId in UserIds(Snapshot(pre)) {
        SkipStep(pre, p, Snapshot(pre));
      } else {
        AddStep(pre, p, Snapshot(pre));
      }
    }
  }

  /** Appending an identity does not move the first occurrence of an earlier userId. */
  lemma {:induction false} PriorStillFirstSeen(pre: seq<Presence>, p: Presence, prior: seq<Presence>)
    requires EntriesFirstSeen(pre, prior) && InFirstSeenOrder(pre, prior)
    ensures EntriesFirstSeen(pre + [p], prior) && InFirstSeenOrder(pre + [p], prior)
  {
    var ps := pre + [p];
    assert ps[..|ps| - 1] == pre;
    forall k | 0 <= k < |prior|
      ensures && prior[k].userId in UserIds(ps)
              && FirstIndex(ps, prior[k].userId) == FirstIndex(pre, prior[k].userId)
              && prior[k] == ps[FirstIndex(ps, prior[k].userId)]
    {
      FirstIndexOfPrefix(ps, prior[k].userId);
      assert ps[FirstIndex(pre, prior[k].userId)] == pre[FirstIndex(pre, prior[k].userId)];
    }
  }

  lemma {:induction false} SkipStep(pre: seq<Presence>, p: Presence, prior: seq<Presence>)
    requires ListsAllBound(pre, prior)
    requires p.userId == PENDING_ID || p.userId in UserIds(prior)
    ensures ListsAllBound(pre + [p], prior)
  {
    var ps := pre + [p];
    forall i | 0 <= i < |ps| && ps[i].userId != PENDING_ID
      ensures ps[i].userId in UserIds(prior)
    {
      if i < |pre| { assert pre[i] == ps[i]; }
    }
  }

  lemma {:induction false} AddStep(pre: seq<Presence>, p: Presence, prior: seq<Presence>)
    requires EntriesFirstSeen(pre + [p], prior) && InFirstSeenOrder(pre + [p], prior)
    requires ListsAllBound(pre, prior)
    requires p.userId != PENDING_ID && p.userId !in UserIds(prior)
    ensures EntriesFirstSeen(pre + [p], prior + [p])
    ensures ListsAllBound(pre + [p], prior + [p])
    ensures InFirstSeenOrder(pre + [p], prior + [p])
  {
    NewUserIsFirstAtEnd(pre, p, prior);
    AddStepEntries(pre, p, prior);
    AddStepBound(pre, p, prior);
  }

  /** A bound userId that the snapshot so far does not list first occurs at the end. */
  lemma {:induction false} NewUserIsFirstAtEnd(pre: seq<Presence>, p: Presence, prior: seq<Presence>)
    requires ListsAllBound(pre, prior)
    requires p.userId != PENDING_ID && p.userId !in UserIds(prior)
    ensures p.userId in UserIds(pre + [p]) && FirstIndex(pre + [p], p.userId) == |pre|
  {
    var ps := pre + [p];
    assert ps[|pre|] == p;
    forall j | 0 <= j < |pre| ensures ps[j].userId != p.userId {
      assert ps[j] == pre[j];
      if pre[j].userId != PENDING_ID {
        assert pre[j].userId in UserIds(prior);
      }
    }
  }

  lemma {:induction false} AddStepEntries(pre: seq<Presence>, p: Presence, prior: seq<Presence>)
    requires EntriesFirstSeen(pre + [p], prior) && InFirstSeenOrder(pre + [p], prior)
    requires p.userId != PENDING_ID && p.userId !in UserIds(prior)
    requires p.userId in UserIds(pre + [p]) && FirstIndex(pre + [p], p.userId) == |pre|
    ensures EntriesFirstSeen(pre + [p], prior + [p])
    ensures InFirstSeenOrder(pre + [p], prior + [p])
  {
    var ps := pre + [p];
    var r := prior + [p];
    assert ps[|pre|] == p;
    assert r[|prior|] == p;
    forall k | 0 <= k < |r|
      ensures r[k].userId != PENDING_ID && r[k].userId in UserIds(ps)
              && r[k] == ps[FirstIndex(ps, r[k].userId)]
    {
      if k < |prior| { assert r[k] == prior[k]; }
    }
    forall k, l | 0 <= k < l < |r|
      ensures r[k].userId in UserIds(ps) && r[l].userId in UserIds(ps)
              && FirstIndex(ps, r[k].userId) < FirstIndex(ps, r[l].userId)
    {
      assert r[k] == prior[k];
      if l < |prior| {
        assert r[l] == prior[l];
      } else {
        assert prior[k].userId != p.userId by {
          assert prior[k].userId in UserIds(prior);
        }
      }
    }
  }

  lemma {:induction false} AddStepBound(pre: seq<Presence>, p: Presence, prior: seq<Presence>)
    requires ListsAllBound(pre, prior)
    ensures ListsAllBound(pre + [p], prior + [p])
  {
    var ps := pre + [p];
    var r := prior + [p];
    UserIdsOfAppend(prior, p);
    forall i | 0 <= i < |ps| && ps[i].userId != PENDING_ID
      ensures ps[i].userId in UserIds(r)
    {
      if i < |pre| { assert pre[i] == ps[i]; }
    }
  }

  /** No userId is listed twice, and "pending" is never listed. */
  lemma SnapshotDistinct(ps: seq<Presence>)
    ensures var r := Snapshot(ps);
      forall k, l :: 0 <= k < l < |r| ==> r[k].userId != r[l].userId && r[k].userId != PENDING_ID
  {
    SnapshotFirstSeen(ps);
  }

  /** A pending socket added at the end changes nothing in the snapshot. */
  lemma SnapshotIgnoresPending(ps: seq<Presence>, p: Presence)
    requires p.userId == PENDING_ID
    ensures Snapshot(ps + [p]) == Snapshot(ps)
  {
    assert (ps + [p])[..|ps|] == ps;
  }

  /** Listing follows accept order, not hello order: of two sockets accepted as `a`
      then `b` that say hello with one userId, `a`'s identity is listed even when `b`
      said hello first, because re-setting a key keeps its place in the map. */
  lemma AcceptOrderWins(a: SocketId, b: SocketId, pa: Presence, pb: Presence)
    requires a != b && pa.userId == pb.userId && pa.userId != PENDING_ID
    ensures var m := OrderedMap([(a, PENDING), (b, PENDING)]).Set(b, pb).Set(a, pa);
      m.entries == [(a, pa), (b, pb)] && Snapshot(m.Values()) == [pa]
  {
    var m0 := OrderedMap([(a, PENDING), (b, PENDING)]);
    assert m0.Keys() == [a, b];
    assert m0.Get(a) == Some(PENDING);
    var m1 := m0.Set(b, pb);
    assert b in m0.Keys();
    assert m1.Keys() == [a, b];
    assert m1.Get(a) == Some(PENDING) && m1.Get(b) == Some(pb);
    assert m1.entries == [(a, PENDING), (b, pb)] by {
      assert m1.entries[0].0 == a && m1.entries[1].0 == b;
    }
    var m2 := m1.Set(a, pa);
    assert a in m1.Keys();
    assert m2.Keys() == [a, b];
    assert m2.Get(a) == Some(pa) && m2.Get(b) == Some(pb);
    assert m2.entries == [(a, pa), (b, pb)] by {
      assert m2.entries[0].0 == a && m2.entries[1].0 == b;
    }
    assert m2.Values() == [pa, pb];
    assert [pa, pb][..1] == [pa];
    assert [pa][..0] == [];
    assert Snapshot([]) == [];
    assert UserIds([]) == {};
    assert Snapshot([pa]) == [pa];
    UserIdsOfAppend([], pa);
    assert [] + [pa] == [pa];
    assert pb.userId in UserIds([pa]);
    assert Snapshot([pa, pb]) == [pa];
  }

  /** A snapshot of valid identities is a valid presence message. */
  lemma {:induction false} SnapshotIsValidMessage(ps: seq<Presence>)
    requires forall i :: 0 <= i < |ps| ==> ValidPresence(ps[i])
    ensures ValidServerMessage(PresenceMsg(Snapshot(ps)))
    decreases |ps|
  {
    if ps != [] {
      var pre := ps[..|ps| - 1];
      var p := ps[|ps| - 1];
      assert forall i :: 0 <= i < |pre| ==> pre[i] == ps[i];
      SnapshotIsValidMessage(pre);
      IdentityIsWireUser(p);
    }
  }

  /** The three handshake errors are valid error messages. */
  lemma HandshakeErrorsAreValid()
    ensures ValidServerMessage(ErrorMsg(BAD_FORMAT))
    ensures ValidServerMessage(ErrorMsg(ALREADY_JOINED))
    ensures ValidServerMessage(ErrorMsg(EXPECTED_HELLO))
  {
  }

  // ----- outboxes

  /** Everything sent so far to socket `ws`. */
  function SentIn(out: map<SocketId, seq<ServerMessage>>, ws: SocketId): seq<ServerMessage> {
    if ws in out then out[ws] else []
  }

  /** The outboxes after `msg` is sent to `ws`. */
  function SendTo(out: map<SocketId, seq<ServerMessage>>, ws: SocketId, msg: ServerMessage): map<SocketId, seq<ServerMessage>> {
    out[ws := SentIn(out, ws) + [msg]]
  }

  /** A new socket is appended to the map as pending, which leaves the snapshot as it was. */
  lemma OpenedSocket(before: OrderedMap<SocketId, Presence>, ws: SocketId)
    requires before.Valid() && ws !in before.Keys()
    ensures before.Set(ws, PENDING).Values() == before.Values() + [PENDING]
    ensures Snapshot(before.Set(ws, PENDING).Values()) == Snapshot(before.Values())
  {
    assert before.Set(ws, PENDING).entries == before.entries + [(ws, PENDING)];
    SnapshotIgnoresPending(before.Values(), PENDING);
  }

  /** The first message sent to a socket is its whole outbox. */
  lemma FirstSend(out: map<SocketId, seq<ServerMessage>>, ws: SocketId, msg: ServerMessage)
    requires ws !in out
    ensures SendTo(out, ws, msg) == out[ws := [msg]]
  {
    assert SentIn(out, ws) + [msg] == [msg];
  }

  predicate Distinct(keys: seq<SocketId>) {
    forall i, j :: 0 <= i < j < |keys| ==> keys[i] != keys[j]
  }

  /** The outboxes after `msg` is sent to each of `keys` in turn, where a send to a
      socket in `failing` throws and is skipped. */
  function Deliver(out: map<SocketId, seq<ServerMessage>>, keys: seq<SocketId>, failing: set<SocketId>,
                   msg: ServerMessage): (r: map<SocketId, seq<ServerMessage>>)
    requires Distinct(keys)
    ensures out.Keys <= r.Keys
    decreases |keys|
  {
    if keys == [] then out
    else
      var prior := Deliver(out, keys[..|keys| - 1], failing, msg);
      var last := keys[|keys| - 1];
      if last in failing then prior else SendTo(prior, last, msg)
  }

  /** What a broadcast delivers: every listed socket whose send does not throw gets the
      message once more, and no other socket gets anything. */
  lemma {:induction false} DeliverReachesAllButFailing(out: map<SocketId, seq<ServerMessage>>, keys: seq<SocketId>,
                                                       failing: set<SocketId>, msg: ServerMessage)
    requires Distinct(keys)
    ensures var r := Deliver(out, keys, failing, msg);
      && (forall ws :: ws in r <==> ws in out || (ws in keys && ws !in failing))
      && (forall ws :: SentIn(r, ws) == SentIn(out, ws) + (if ws in keys && ws !in failing then [msg] else []))
    decreases |keys|
  {
    if keys != [] {
      var pre := keys[..|keys| - 1];
      DistinctPrefix(keys, |keys| - 1);
      DeliverReachesAllButFailing(out, pre, failing, msg);
      assert forall ws :: ws in keys <==> ws in pre || ws == keys[|keys| - 1];
      assert keys[|keys| - 1] !in pre;
    }
  }

  lemma DistinctPrefix(keys: seq<SocketId>, i: nat)
    requires Distinct(keys) && i <= |keys|
    ensures Distinct(keys[..i])
  {
    forall a, b | 0 <= a < b < i ensures keys[..i][a] != keys[..i][b] {
      assert keys[..i][a] == keys[a] && keys[..i][b] == keys[b];
    }
  }

  /** One more socket of the broadcast loop. */
  lemma DeliverStep(out: map<SocketId, seq<ServerMessage>>, keys: seq<SocketId>, i: nat,
                    failing: set<SocketId>, msg: ServerMessage)
    requires i < |keys| && Distinct(keys[..i + 1]) && Distinct(keys[..i])
    ensures Deliver(out, keys[..i + 1], failing, msg)
         == if keys[i] in failing then Deliver(out, keys[..i], failing, msg)
            else SendTo(Deliver(out, keys[..i], failing, msg), keys[i], msg)
  {
    var ks := keys[..i + 1];
    assert ks[..|ks| - 1] == keys[..i];
    assert ks[|ks| - 1] == keys[i];
  }

  /** The broadcast loop's step, from the first `i` keys to the first `i + 1`. */
  lemma BroadcastStep(out: map<SocketId, seq<ServerMessage>>, keys: seq<SocketId>, i: nat,
                      failing: set<SocketId>, msg: ServerMessage)
    requires Distinct(keys) && i < |keys|
    ensures Distinct(keys[..i]) && Distinct(keys[..i + 1])
    ensures Deliver(out, keys[..i + 1], failing, msg)
         == if keys[i] in failing then Deliver(out, keys[..i], failing, msg)
            else SendTo(Deliver(out, keys[..i], failing, msg), keys[i], msg)
  {
    DistinctPrefix(keys, i);
    DistinctPrefix(keys, i + 1);
    DeliverStep(out, keys, i, failing, msg);
  }

  predicate AllValid(msgs: seq<ServerMessage>) {
    forall k :: 0 <= k < |msgs| ==> ValidServerMessage(msgs[k])
  }

  /** Every socket was accepted (its id is below `bound`) and holds a schema-valid identity. */
  ghost predicate SocketsOk(s: OrderedMap<SocketId, Presence>, bound: nat) {
    && s.Valid()
    && forall i :: 0 <= i < |s.entries| ==> s.entries[i].0 < bound && ValidPresence(s.entries[i].1)
  }

  /** Every outbox belongs to an accepted socket and holds only schema-valid messages. */
  predicate OutboxOk(out: map<SocketId, seq<ServerMessage>>, bound: nat) {
    forall ws :: ws in out ==> ws < bound && AllValid(out[ws])
  }

  lemma SocketsOkGrows(s: OrderedMap<SocketId, Presence>, bound: nat)
    requires SocketsOk(s, bound)
    ensures SocketsOk(s, bound + 1)
  {
  }

  lemma SetKeepsSocketsOk(s: OrderedMap<SocketId, Presence>, ws: SocketId, p: Presence, bound: nat)
    requires SocketsOk(s, bound) && ws < bound && ValidPresence(p)
    ensures SocketsOk(s.Set(ws, p), bound)
  {
    var m := s.Set(ws, p);
    forall i | 0 <= i < |m.entries| ensures m.entries[i].0 < bound && ValidPresence(m.entries[i].1) {
      var k := m.entries[i].0;
      assert m.Keys()[i] == k;
      assert m.Get(k) == Some(m.entries[i].1);
      if k != ws {
        assert s.Get(k) == Some(m.entries[i].1);
        var j :| 0 <= j < |s.entries| && s.Keys()[j] == k;
        assert s.entries[j].0 == k;
      }
    }
  }

  lemma DeleteKeepsSocketsOk(s: OrderedMap<SocketId, Presence>, ws: SocketId, bound: nat)
    requires SocketsOk(s, bound)
    ensures SocketsOk(s.Delete(ws), bound)
  {
    var m := s.Delete(ws);
    forall i | 0 <= i < |m.entries| ensures m.entries[i].0 < bound && ValidPresence(m.entries[i].1) {
      var k := m.entries[i].0;
      assert m.Keys()[i] == k;
      assert m.Get(k) == Some(m.entries[i].1);
      assert s.Get(k) == Some(m.entries[i].1);
      var j :| 0 <= j < |s.entries| && s.Keys()[j] == k;
      assert s.entries[j].0 == k;
    }
  }

  lemma OutboxOkGrows(out: map<SocketId, seq<ServerMessage>>, bound: nat)
    requires OutboxOk(out, bound)
    ensures OutboxOk(out, bound + 1)
  {
  }

  lemma SendToKeepsOutboxOk(out: map<SocketId, seq<ServerMessage>>, ws: SocketId, msg: ServerMessage, bound: nat)
    requires OutboxOk(out, bound) && ws < bound && ValidServerMessage(msg)
    ensures OutboxOk(SendTo(out, ws, msg), bound)
  {
    var r := SendTo(out, ws, msg);
    assert AllValid(SentIn(out, ws));
    assert r[ws] == SentIn(out, ws) + [msg];
  }

  lemma DeliverKeepsOutboxOk(out: map<SocketId, seq<ServerMessage>>, keys: seq<SocketId>,
                             failing: set<SocketId>, msg: ServerMessage, bound: nat)
    requires OutboxOk(out, bound) && Distinct(keys) && ValidServerMessage(msg)
    requires forall i :: 0 <= i < |keys| ==> keys[i] < bound
    ensures OutboxOk(Deliver(out, keys, failing, msg), bound)
  {
    var r := Deliver(out, keys, failing, msg);
    DeliverReachesAllButFailing(out, keys, failing, msg);
    forall ws | ws in r ensures ws < bound && AllValid(r[ws]) {
      assert r[ws] == SentIn(r, ws);
      assert AllValid(SentIn(out, ws));
    }
  }

  class RoomDurableObject {
    /** The live sockets and who they are, in accept order. */
    var sockets: OrderedMap<SocketId, Presence>
    /** What each socket has been sent. */
    var outbox: map<SocketId, seq<ServerMessage>>
    /** The number of sockets accepted so far; the next socket's id. */
    var nextSocket: SocketId

    /** Sockets are distinct and were all accepted here; every identity held passed the
        handshake schema (or is the pending sentinel); every message any socket was sent
        satisfies the server-message schema. */
    ghost predicate Valid()
      reads this
    {
      SocketsOk(sockets, nextSocket) && OutboxOk(outbox, nextSocket)
    }

    function Sent(ws: SocketId): seq<ServerMessage>
      reads this
    {
      SentIn(outbox, ws)
    }

    constructor ()
      ensures Valid()
      ensures sockets.entries == [] && outbox == map[] && nextSocket == 0
    {
      sockets := Empty();
      outbox := map[];
      nextSocket := 0;
    }

    lemma KeysDistinct()
      requires Valid()
      ensures Distinct(sockets.Keys())
      ensures forall ws :: ws in sockets.Keys() ==> ws < nextSocket
    {
    }

    lemma ValuesValid()
      requires Valid()
      ensures forall i :: 0 <= i < |sockets.Values()| ==> ValidPresence(sockets.Values()[i])
    {
    }

    /** POST /broadcast: a body the server-message schema accepts goes to every socket
        and gets 204; any other body (including one that is not JSON, read as `null`)
        gets 400 and nothing is sent; any other method or path gets 404. `body` is the
        result of parsing the request body as JSON. */
    method HandleHttp(httpMethod: string, path: string, body: Option<Json>, failing: set<SocketId>)
      returns (resp: Response)
      requires Valid()
      modifies this
      ensures Valid()
      ensures sockets == old(sockets) && nextSocket == old(nextSocket)
      ensures !(httpMethod == "POST" && path == "/broadcast") ==> resp == NOT_FOUND && outbox == old(outbox)
      ensures httpMethod == "POST" && path == "/broadcast" ==>
        match DecodeServerMessage(body.GetOr(JNull))
        case None => resp == INVALID_BROADCAST && outbox == old(outbox)
        case Some(m) => resp == NO_CONTENT && outbox == Deliver(old(outbox), sockets.Keys(), failing, m)
    {
      if httpMethod == "POST" && path == "/broadcast" {
        var parsed := DecodeServerMessage(body.GetOr(JNull));
        if parsed.None? {
          return INVALID_BROADCAST;
        }
        KeysDistinct();
        Broadcast(parsed.value, failing);
        return NO_CONTENT;
      }
      return NOT_FOUND;
    }

    /** Accepting a socket: it is tracked as pending (last in accept order) and is sent a
        presence message listing the users already bound, never itself. */
    method HandleWebSocket() returns (ws: SocketId)
      requires Valid()
      modifies this
      ensures Valid()
      ensures ws == old(nextSocket) && nextSocket == ws + 1 && ws !in old(sockets.Keys())
      ensures sockets.entries == old(sockets.entries) + [(ws, PENDING)]
      ensures outbox == old(outbox)[ws := [PresenceMsg(Snapshot(old(sockets.Values())))]]
    {
      ghost var before := sockets;
      ws := nextSocket;
      assert ws !in before.Keys();
      assert ws !in outbox;
      SocketsOkGrows(sockets, nextSocket);
      OutboxOkGrows(outbox, nextSocket);
      nextSocket := nextSocket + 1;
      TrackPending(ws);
      OpenedSocket(before, ws);
      var users := CurrentUsers();
      ValuesValid();
      SnapshotIsValidMessage(sockets.Values());
      FirstSend(outbox, ws, PresenceMsg(users));
      Send(ws, PresenceMsg(users));
    }

    /** Marks `ws` as pending: a new socket goes last, a known one keeps its place. */
    method TrackPending(ws: SocketId)
      requires Valid() && ws < nextSocket
      modifies this
      ensures Valid()
      ensures sockets == old(sockets).Set(ws, PENDING)
      ensures outbox == old(outbox) && nextSocket == old(nextSocket)
    {
      assert JsLength(PENDING.displayName) <= 2 * |PENDING.displayName|;
      SetKeepsSocketsOk(sockets, ws, PENDING, nextSocket);
      sockets := sockets.Set(ws, PENDING);
    }

    /** A text frame on socket `ws`; `data` is the result of `JSON.parse` on it (`None`
        when it is not JSON, which includes a binary frame, read as ""). Parsing comes
        first, then the already-joined check, then the hello schema. A socket no longer
        in the map counts as pending, and a hello puts it back at the end. */
    method OnMessage(ws: SocketId, data: Option<Json>, failing: set<SocketId>)
      requires Valid() && ws < nextSocket
      modifies this
      ensures Valid() && nextSocket == old(nextSocket)
      ensures var current := old(sockets).Get(ws);
        var isPending := current.None? || current.value.userId == PENDING_ID;
        if data.None? then
          sockets == old(sockets) && outbox == SendTo(old(outbox), ws, ErrorMsg(BAD_FORMAT))
        else if !isPending then
          sockets == old(sockets) && outbox == SendTo(old(outbox), ws, ErrorMsg(ALREADY_JOINED))
        else
          match DecodeHello(data.value)
          case None =>
            sockets == old(sockets) && outbox == SendTo(old(outbox), ws, ErrorMsg(EXPECTED_HELLO))
          case Some(user) =>
            && sockets == old(sockets).Set(ws, user)
            && outbox == Deliver(old(outbox), sockets.Keys(), failing, PresenceMsg(Snapshot(sockets.Values())))
    {
      HandshakeErrorsAreValid();
      if data.None? {
        Send(ws, ErrorMsg(BAD_FORMAT));
        return;
      }
      var current := sockets.Get(ws);
      var isPending := current.None? || current.value.userId == PENDING_ID;
      if !isPending {
        Send(ws, ErrorMsg(ALREADY_JOINED));
        return;
      }
      var parsed := DecodeHello(data.value);
      if parsed.None? {
        Send(ws, ErrorMsg(EXPECTED_HELLO));
        return;
      }
      Bind(ws, parsed.value);
      BroadcastPresence(failing);
    }

    /** `sockets.set(ws, user)` for a validated user. */
    method Bind(ws: SocketId, user: Presence)
      requires Valid() && ws < nextSocket && ValidPresence(user)
      modifies this
      ensures Valid()
      ensures sockets == old(sockets).Set(ws, user)
      ensures outbox == old(outbox) && nextSocket == old(nextSocket)
    {
      SetKeepsSocketsOk(sockets, ws, user, nextSocket);
      sockets := sockets.Set(ws, user);
    }

    /** Close or error: the socket is dropped, pending or bound, and everyone left is
        sent the new snapshot. Closing a socket already gone leaves the map as it is
        but still broadcasts. */
    method OnClose(ws: SocketId, failing: set<SocketId>)
      requires Valid()
      modifies this
      ensures Valid() && nextSocket == old(nextSocket)
      ensures sockets == old(sockets).Delete(ws)
      ensures outbox == Deliver(old(outbox), sockets.Keys(), failing, PresenceMsg(Snapshot(sockets.Values())))
    {
      DeleteKeepsSocketsOk(sockets, ws, nextSocket);
      sockets := sockets.Delete(ws);
      BroadcastPresence(failing);
    }

    /** A direct send to one socket. */
    method Send(ws: SocketId, msg: ServerMessage)
      requires Valid() && ws < nextSocket && ValidServerMessage(msg)
      modifies this
      ensures Valid()
      ensures outbox == SendTo(old(outbox), ws, msg)
      ensures sockets == old(sockets) && nextSocket == old(nextSocket)
    {
      SendToKeepsOutboxOk(outbox, ws, msg, nextSocket);
      outbox := SendTo(outbox, ws, msg);
    }

    /** Sends `msg` to every socket in map order; a send that throws is skipped and the
        loop goes on. */
    method Broadcast(msg: ServerMessage, failing: set<SocketId>)
      requires Valid() && ValidServerMessage(msg)
      modifies this
      ensures Valid()
      ensures sockets == old(sockets) && nextSocket == old(nextSocket)
      ensures Distinct(sockets.Keys()) && outbox == Deliver(old(outbox), sockets.Keys(), failing, msg)
    {
      KeysDistinct();
      var keys := sockets.Keys();
      ghost var before := outbox;
      for i := 0 to |keys|
        invariant sockets == old(sockets) && nextSocket == old(nextSocket)
        invariant Distinct(keys[..i]) && outbox == Deliver(before, keys[..i], failing, msg)
      {
        BroadcastStep(before, keys, i, failing, msg);
        if keys[i] !in failing {
          outbox := SendTo(outbox, keys[i], msg);
        }
      }
      assert keys[..|keys|] == keys;
      DeliverKeepsOutboxOk(before, keys, failing, msg, nextSocket);
    }

    /** The users of the current snapshot: bound identities in accept order, first
        socket per userId wins. */
    method CurrentUsers() returns (users: seq<Presence>)
      requires Valid()
      ensures users == Snapshot(sockets.Values())
    {
      var byUserId: OrderedMap<string, Presence> := Empty();
      var values := sockets.Values();
      for i := 0 to |values|
        invariant byUserId.entries == Indexed(Snapshot(values[..i]))
      {
        CurrentUsersStep(byUserId, values, i);
        var p := values[i];
        if p.userId == PENDING_ID {
          continue;
        }
        if !byUserId.Has(p.userId) {
          byUserId := byUserId.Set(p.userId, p);
        }
      }
      assert values[..|values|] == values;
      users := byUserId.Values();
    }

    method BroadcastPresence(failing: set<SocketId>)
      requires Valid()
      modifies this
      ensures Valid()
      ensures sockets == old(sockets) && nextSocket == old(nextSocket)
      ensures Distinct(sockets.Keys())
      ensures outbox == Deliver(old(outbox), sockets.Keys(), failing, PresenceMsg(Snapshot(sockets.Values())))
    {
      var users := CurrentUsers();
      ValuesValid();
      SnapshotIsValidMessage(sockets.Values());
      Broadcast(PresenceMsg(users), failing);
    }
  }

  /** One identity of the `currentUsers` loop: `byUserId` holds the snapshot so far,
      keyed by userId; a pending or already listed identity leaves it as it is, and any
      other is added last. */
  lemma CurrentUsersStep(byUserId: OrderedMap<string, Presence>, values: seq<Presence>, i: nat)
    requires i < |values| && byUserId.entries == Indexed(Snapshot(values[..i]))
    ensures byUserId.Valid()
    ensures var p := values[i];
      && (p.userId == PENDING_ID || byUserId.Has(p.userId) ==>
            byUserId.entries == Indexed(Snapshot(values[..i + 1])))
      && (p.userId != PENDING_ID && !byUserId.Has(p.userId) ==>
            byUserId.Set(p.userId, p).entries == Indexed(Snapshot(values[..i + 1])))
  {
    assert values[..i + 1][..i] == values[..i];
    var p := values[i];
    var s := Snapshot(values[..i]);
    SnapshotDistinct(values[..i]);
    IndexedKeys(byUserId, s);
    if p.userId != PENDING_ID {
      if !byUserId.Has(p.userId) {
        assert p.userId !in UserIds(s);
        assert Indexed(s + [p]) == Indexed(s) + [(p.userId, p)];
      } else {
        var k := byUserId.IndexOf(p.userId).value;
        assert s[k].userId == p.userId;
      }
    }
  }

  /** A map built from a snapshot by userId is valid and keyed in snapshot order. */
  lemma IndexedKeys(m: OrderedMap<string, Presence>, s: seq<Presence>)
    requires m.entries == Indexed(s)
    requires forall k, l :: 0 <= k < l < |s| ==> s[k].userId != s[l].userId
    ensures m.Valid()
    ensures forall k :: 0 <= k < |m.entries| ==> m.entries[k].0 == s[k].userId
  {
  }

  /** The entries of the `byUserId` map built for a snapshot. */
  function Indexed(ps: seq<Presence>): (es: seq<(string, Presence)>)
    ensures |es| == |ps| && forall k :: 0 <= k < |ps| ==> es[k] == (ps[k].userId, ps[k])
  {
    seq(|ps|, k requires 0 <= k < |ps| => (ps[k].userId, ps[k]))
  }

  /** A client joining a room, step by step: the handshake checks run in order, and a
      slot that sent a wrong first frame can still say hello once, but not twice. */
  method HandshakeWalkthrough(alice: Presence, bob: Presence)
    requires ValidPresence(alice) && ValidPresence(bob) && alice.userId != PENDING_ID
  {
    var room := new RoomDurableObject();
    var a := room.HandleWebSocket();
    assert room.Sent(a) == [PresenceMsg([])];

    var ping := JObject(map["kind" := JString("ping")]);
    assert DecodeHello(ping).None?;
    room.OnMessage(a, Some(ping), {});
    assert room.sockets.entries == [(a, PENDING)];

    HelloRoundTrip(alice);
    room.OnMessage(a, Some(EncodeHello(alice)), {});
    assert room.sockets.Get(a) == Some(alice);

    HelloRoundTrip(bob);
    room.OnMessage(a, Some(EncodeHello(bob)), {});
    assert room.sockets.Get(a) == Some(alice);
  }
}
