/**
  The bridge between the dispenser-facing Kent server and the browser-facing
  websocket server: device reports are fanned out to every websocket client,
  and envelopes from the browsers are routed to the addressed dispenser.
  Device payloads are the bytes `proto.Marshal` produced; the protocol-buffer
  schema is not modelled.
 */
module Relay {
  import opened Wrappers
  import opened Numeric
  import opened Wire
  import opened Registry
  import Base64

  /** The report kinds a dispenser can send that the bridge registers a handler for. */
  datatype ReportKind =
    | DispenserProcessResp
    | SnapshotRpt
    | DispenserStateRpt
    | LogRpt
    | EepromRRpt
    | DispenserPidDbgRpt
    | DbgScaleReadResp
    | FryerStateRpt
    | FryerUnlockFreezerResponse
    | FryerCookModeResponse
    | FryerHotHoldResponse
    | FryerFreezerResp
    | OtherKind(name: string)

  /** `kentSubscribe`'s data-callback registrations, in source order; the last four repeat earlier kinds. */
  const Registrations: seq<ReportKind> := [
    DispenserProcessResp, SnapshotRpt, DispenserStateRpt, LogRpt, EepromRRpt,
    DispenserPidDbgRpt, DbgScaleReadResp, FryerStateRpt,
    FryerUnlockFreezerResponse, FryerCookModeResponse, FryerHotHoldResponse, FryerFreezerResp,
    FryerUnlockFreezerResponse, FryerCookModeResponse, FryerHotHoldResponse, FryerFreezerResp
  ]

  predicate Subscribed(k: ReportKind) {
    k in Registrations
  }

  /** A frame written to one websocket connection. */
  datatype Write = Write(conn: ConnHandle, env: Envelope)

  /** A `SendData(id, req)` call into the Kent server, with the bytes `req` was unmarshalled from. */
  datatype DeviceSend = DeviceSend(device: string, payload: seq<byte>)

  /** Bridge state: the client list and the traces of websocket writes and device sends. */
  datatype Relay = Relay(clients: seq<Client>, written: seq<Write>, sent: seq<DeviceSend>)

  const Initial: Relay := Relay([], [], [])

  /** The envelope `kentMsgHandler` builds for one device report. */
  function ReportEnvelope(device: string, marshalled: seq<byte>): (e: Envelope)
    ensures e.id == device
    ensures Base64.Decode(e.binary) == Base64.Decoded(marshalled, true)
  {
    Base64.DecodeEncode(marshalled);
    Envelope(device, Base64.Encode(marshalled))
  }

  /** One write of `env` per client, in list order. */
  function WriteAll(clients: seq<Client>, env: Envelope): (w: seq<Write>)
    ensures |w| == |clients|
    ensures forall i :: 0 <= i < |clients| ==> w[i] == Write(clients[i].conn, env)
  {
    if |clients| == 0 then [] else [Write(clients[0].conn, env)] + WriteAll(clients[1..], env)
  }

  /**
    `kentMsgHandler`: the same envelope is written exactly once to every
    client, in list order; the client list and the device trace are
    untouched.
   */
  function Broadcast(r: Relay, device: string, marshalled: seq<byte>): (r': Relay)
    ensures r'.clients == r.clients && r'.sent == r.sent
    ensures |r'.written| == |r.written| + |r.clients| && r'.written[..|r.written|] == r.written
    ensures forall i :: 0 <= i < |r.clients| ==>
              r'.written[|r.written| + i] == Write(r.clients[i].conn, ReportEnvelope(device, marshalled))
  {
    r.(written := r.written + WriteAll(r.clients, ReportEnvelope(device, marshalled)))
  }

  /**
    A device report reaches the browsers only for a kind `kentSubscribe`
    registered: a report of any of the twelve named kinds is written once
    to every client, in list order, and any other kind changes nothing.
   */
  function OnDeviceData(r: Relay, kind: ReportKind, device: string, marshalled: seq<byte>): (r': Relay)
    ensures kind.OtherKind? ==> r' == r
    ensures !kind.OtherKind? ==>
              && r'.clients == r.clients && r'.sent == r.sent
              && r'.written == r.written + WriteAll(r.clients, ReportEnvelope(device, marshalled))
  {
    SubscribedKinds(kind);
    if Subscribed(kind) then Broadcast(r, device, marshalled) else r
  }

  /**
    `wsMsgHandler`: a frame that is not a JSON envelope is dropped; any
    other is forwarded to its dispenser with whatever bytes the base64
    decoder produced, errors from base64 and protocol-buffer decoding
    notwithstanding.
   */
  function HandleInbound(r: Relay, f: Frame): (r': Relay)
    ensures r'.clients == r.clients && r'.written == r.written
    ensures f.Malformed? ==> r'.sent == r.sent
    ensures f.Json? ==> |r'.sent| == |r.sent| + 1 && r'.sent[..|r.sent|] == r.sent
    ensures f.Json? ==> r'.sent[|r.sent|].device == f.env.id
  {
    match f
    case Malformed(_) => r
    case Json(env) => r.(sent := r.sent + [DeviceSend(env.id, Base64.Decode(env.binary).data)])
  }

  /** The outcome of one `conn.ReadMessage()`. */
  datatype ReadResult = Received(frame: Frame) | ReadFailed

  /** The read loop of `websocketHandler` for client `c`: handle frames until the first read error, then unregister. */
  function ReadLoop(r: Relay, c: Client, results: seq<ReadResult>): (r': Relay)
    ensures r'.written == r.written
    decreases |results|
  {
    if |results| == 0 then r
    else match results[0]
      case ReadFailed => r.(clients := RemoveClient(r.clients, c.id))
      case Received(f) => ReadLoop(HandleInbound(r, f), c, results[1..])
  }

  /**
    `websocketHandler` for one connection: a failed upgrade changes
    nothing; otherwise the client with identity `id` (the freshly minted
    UUID) is registered before the first read, and `results` are the
    outcomes of its successive reads.
   */
  function ServeConnection(r: Relay, upgraded: bool, id: string, conn: ConnHandle, results: seq<ReadResult>): (r': Relay)
    ensures r'.written == r.written
    ensures !upgraded ==> r' == r
  {
    if !upgraded then r
    else ReadLoop(r.(clients := AddClient(r.clients, Client(id, conn))), Client(id, conn), results)
  }

  /** Reference: the device sends the frames read before the first read error give rise to. */
  function Forwarded(results: seq<ReadResult>): seq<DeviceSend> {
    if |results| == 0 then []
    else match results[0]
      case ReadFailed => []
      case Received(Malformed(_)) => Forwarded(results[1..])
      case Received(Json(env)) => [DeviceSend(env.id, Base64.Decode(env.binary).data)] + Forwarded(results[1..])
  }

  predicate Disconnects(results: seq<ReadResult>) {
    exists i :: 0 <= i < |results| && results[i].ReadFailed?
  }

  /** The read loop forwards exactly `Forwarded(results)` and, on a read error, removes the client; otherwise the list is kept. */
  lemma {:induction false} ReadLoopSpec(r: Relay, c: Client, results: seq<ReadResult>)
    ensures ReadLoop(r, c, results).sent == r.sent + Forwarded(results)
    ensures ReadLoop(r, c, results).clients == if Disconnects(results) then RemoveClient(r.clients, c.id) else r.clients
    ensures Disconnects(results) && UniqueIds(r.clients) ==>
              RemoveClientAsWritten(r.clients, c.id) == Some(ReadLoop(r, c, results).clients)
    decreases |results|
  {
    if Disconnects(results) && UniqueIds(r.clients) {
      RemoveAsWrittenAgrees(r.clients, c.id);
    }
    if |results| == 0 {
      assert r.sent + [] == r.sent;
    } else if results[0].ReadFailed? {
      assert r.sent + [] == r.sent;
    } else {
      var r1 := HandleInbound(r, results[0].frame);
      ReadLoopSpec(r1, c, results[1..]);
      assert Disconnects(results) <==> Disconnects(results[1..]) by {
        if Disconnects(results) {
          var i :| 0 <= i < |results| && results[i].ReadFailed?;
          assert results[1..][i - 1] == results[i];
        }
        if Disconnects(results[1..]) {
          var i :| 0 <= i < |results[1..]| && results[1..][i].ReadFailed?;
          assert results[i + 1] == results[1..][i];
        }
      }
      match results[0].frame {
        case Malformed(_) =>
        case Json(env) =>
          assert r1.sent + Forwarded(results[1..]) == r.sent + ([DeviceSend(env.id, Base64.Decode(env.binary).data)] + Forwarded(results[1..]));
      }
    }
  }

  /**
    Lifecycle: an upgraded connection with a fresh identity is registered
    exactly once before reading; on a read error it is removed again and
    the list is back to what it was, so no entry with that identity
    remains; while no read has failed it stays registered at the end.
   */
  lemma Lifecycle(r: Relay, id: string, conn: ConnHandle, results: seq<ReadResult>)
    requires !HasId(r.clients, id)
    ensures var r' := ServeConnection(r, true, id, conn, results);
            && r'.sent == r.sent + Forwarded(results)
            && (Disconnects(results) ==> r'.clients == r.clients && !HasId(r'.clients, id))
            && (!Disconnects(results) ==> r'.clients == r.clients + [Client(id, conn)])
  {
    var r1 := r.(clients := AddClient(r.clients, Client(id, conn)));
    ReadLoopSpec(r1, Client(id, conn), results);
    AddThenRemove(r.clients, Client(id, conn));
  }

  /** Broadcasting then decoding on the browser side returns the marshalled report to every client. */
  lemma BroadcastDelivers(r: Relay, device: string, marshalled: seq<byte>, i: nat)
    requires i < |r.clients|
    ensures var w := Broadcast(r, device, marshalled).written[|r.written| + i];
            && w.conn == r.clients[i].conn
            && w.env.id == device
            && Base64.Decode(w.env.binary) == Base64.Decoded(marshalled, true)
  {
  }

  /** An envelope built from marshalled bytes reaches its dispenser with exactly those bytes. */
  lemma RouteRoundTrip(r: Relay, device: string, marshalled: seq<byte>)
    ensures HandleInbound(r, Json(Envelope(device, Base64.Encode(marshalled)))).sent == r.sent + [DeviceSend(device, marshalled)]
  {
    Base64.DecodeEncode(marshalled);
  }

  /**
    A payload that is not base64 is still sent: the decoder's error is
    discarded and the bytes decoded before it (none, when the first
    character is already wrong) go to the dispenser.
   */
  lemma BadBase64StillSent(r: Relay, device: string, binary: string)
    requires |binary| > 0 && !Base64.IsLineBreak(binary[0]) && !Base64.IsAlphabet(binary[0])
    ensures !Base64.Decode(binary).ok
    ensures HandleInbound(r, Json(Envelope(device, binary))).sent == r.sent + [DeviceSend(device, [])]
  {
    Base64.DecodeRejectsLeadingJunk(binary);
  }

  /** Events the bridge reacts to, one handler invocation each. */
  datatype Event =
    | Connected(id: string, conn: ConnHandle)
    | Inbound(frame: Frame)
    | Disconnected(id: string)
    | DeviceData(kind: ReportKind, device: string, marshalled: seq<byte>)

  /**
    One handler invocation with the others' steps interleaved between
    them: registration, one read handled, the read error's removal, or a
    device report.
   */
  function Step(r: Relay, e: Event): (r': Relay)
    ensures e.Disconnected? ==> !HasId(r'.clients, e.id)
    ensures e.Connected? ==> Client(e.id, e.conn) in r'.clients
    ensures r.sent <= r'.sent && r.written <= r'.written
  {
    match e
    case Connected(id, conn) => r.(clients := AddClient(r.clients, Client(id, conn)))
    case Inbound(f) => HandleInbound(r, f)
    case Disconnected(id) => r.(clients := RemoveClient(r.clients, id))
    case DeviceData(kind, device, marshalled) => OnDeviceData(r, kind, device, marshalled)
  }

  function Run(r: Relay, events: seq<Event>): (r': Relay)
    ensures r.sent <= r'.sent && r.written <= r'.written
    decreases |events|
  {
    if |events| == 0 then r else Run(Step(r, events[0]), events[1..])
  }

  /** Every connection identity is fresh when it is registered. */
  predicate FreshIds(r: Relay, events: seq<Event>)
    decreases |events|
  {
    |events| == 0 || (
      (events[0].Connected? ==> !HasId(r.clients, events[0].id))
      && FreshIds(Step(r, events[0]), events[1..]))
  }

  /** With fresh identities, the client list never holds a duplicate. */
  lemma {:induction false} RunKeepsUnique(r: Relay, events: seq<Event>)
    requires UniqueIds(r.clients) && FreshIds(r, events)
    ensures UniqueIds(Run(r, events).clients)
    decreases |events|
  {
    if |events| > 0 {
      StepKeepsUnique(r, events[0]);
      RunKeepsUnique(Step(r, events[0]), events[1..]);
    }
  }

  /** One step keeps identities unique when a connecting identity is fresh. */
  lemma StepKeepsUnique(r: Relay, e: Event)
    requires UniqueIds(r.clients) && (e.Connected? ==> !HasId(r.clients, e.id))
    ensures UniqueIds(Step(r, e).clients)
  {
    match e {
      case Connected(id, conn) => AddKeepsUnique(r.clients, Client(id, conn));
      case Inbound(_) =>
      case Disconnected(id) => RemoveKeepsUnique(r.clients, id);
      case DeviceData(_, _, _) =>
    }
  }

  /**
    `Step` with `removeClient` as written on a disconnect: `None` when the
    removal panics.
   */
  function StepAsWritten(r: Relay, e: Event): (r': Option<Relay>)
    ensures e.Disconnected? && r'.Some? ==> |r'.value.clients| <= |r.clients|
    ensures r'.Some? ==> r.sent <= r'.value.sent && r.written <= r'.value.written
  {
    match e
    case Disconnected(id) =>
      var cl :- RemoveClientAsWritten(r.clients, id);
      Some(r.(clients := cl))
    case _ => Some(Step(r, e))
  }

  /**
    A run of handler steps with `removeClient` as written. The model stops
    at the first panic. The bridge does not: net/http recovers the panic of
    that connection's handler and keeps serving the others, with the client
    list already shortened by the first `append`. Runs past a panic are not
    modelled.
   */
  function RunAsWritten(r: Relay, events: seq<Event>): (r': Option<Relay>)
    ensures r'.Some? ==> r.sent <= r'.value.sent && r.written <= r'.value.written
    decreases |events|
  {
    if |events| == 0 then Some(r)
    else
      var r1 :- StepAsWritten(r, events[0]);
      RunAsWritten(r1, events[1..])
  }

  /**
    With fresh identities, the bridge as written never panics in
    `removeClient` and ends exactly where the run with the corrected
    removal does.
   */
  lemma {:induction false} RunAsWrittenAgrees(r: Relay, events: seq<Event>)
    requires UniqueIds(r.clients) && FreshIds(r, events)
    ensures RunAsWritten(r, events) == Some(Run(r, events))
    decreases |events|
  {
    if |events| > 0 {
      var e := events[0];
      if e.Disconnected? {
        RemoveAsWrittenAgrees(r.clients, e.id);
      }
      assert StepAsWritten(r, e) == Some(Step(r, e));
      StepKeepsUnique(r, e);
      RunAsWrittenAgrees(Step(r, e), events[1..]);
    }
  }

  /** Only registered kinds are forwarded: exactly the twelve named ones, each at least once. */
  lemma SubscribedKinds(k: ReportKind)
    ensures Subscribed(k) <==> !k.OtherKind?
  {
    if !k.OtherKind? {
      match k {
        case DispenserProcessResp => assert Registrations[0] == k;
        case SnapshotRpt => assert Registrations[1] == k;
        case DispenserStateRpt => assert Registrations[2] == k;
        case LogRpt => assert Registrations[3] == k;
        case EepromRRpt => assert Registrations[4] == k;
        case DispenserPidDbgRpt => assert Registrations[5] == k;
        case DbgScaleReadResp => assert Registrations[6] == k;
        case FryerStateRpt => assert Registrations[7] == k;
        case FryerUnlockFreezerResponse => assert Registrations[8] == k;
        case FryerCookModeResponse => assert Registrations[9] == k;
        case FryerHotHoldResponse => assert Registrations[10] == k;
        case FryerFreezerResp => assert Registrations[11] == k;
      }
    }
  }

  /** The last four registrations repeat the four fryer response kinds before them. */
  lemma DuplicateRegistrations()
    ensures |Registrations| == 16
    ensures Registrations[12..] == Registrations[8..12]
  {
  }
}
