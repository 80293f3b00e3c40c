/**
  The browser-side controller (`Ctx` in the WebAssembly program): the
  connection flag `wsConn`, the websockets it has created, the page, the
  requests it has sent and its log. The log area shows entries newest
  first with a timestamp; here it is the list of entries, oldest first,
  without timestamps.

  A Go panic ends the WebAssembly program; later clicks and socket events
  reach no Go code. That is `halted`. It happens when a JavaScript call
  throws or is made on `undefined`: closing or sending before the first
  `Connect` (no socket yet), sending on a socket that is still connecting
  (the WebSocket `send` method throws `InvalidStateError` then), and an
  index past the end of a report section.
 */
module Controller {
  import opened Wrappers
  import opened Numeric
  import opened Dom
  import opened Wire
  import opened Requests
  import Eeprom
  import Base64

  /** The WebSocket `readyState`. */
  datatype SocketState = Connecting | Open | Closing | Closed

  datatype Socket = Socket(url: string, state: SocketState)

  /** One `send` on socket number `socket`: the envelope's dispenser id and the request it carries. */
  datatype Sent = Sent(socket: nat, id: string, req: Request)

  datatype LogLine = Note(text: string) | RequestLine(req: Request) | Incoming(id: string, report: string)

  datatype Browser = Browser(
    wsConn: bool,
    sockets: seq<Socket>,
    dom: Dom,
    sent: seq<Sent>,
    log: seq<LogLine>,
    halted: bool)

  const NotConnected: string := "Not Connected to Broker!"

  /** The PID log's column titles, written at start-up and by `ClearPidLog`. */
  const PidAreaTitle: string := "Run\tLoop\tt\tSp\tCv\tErr\tInt\tDer\tP\tI\tD\tPv\n"

  /** `main`: not connected, no socket, the PID log titled. */
  function Init(d: Dom): (b: Browser)
    ensures !b.wsConn && |b.sockets| == 0 && b.sent == [] && !b.halted
  {
    Browser(false, [], Write(d, "txtPidAreaTitle", PidAreaTitle), [], [], false)
  }

  /** The dispenser the page addresses, read afresh for every send. */
  function DispenserId(d: Dom): string {
    Read(d, "txtDispenserId")
  }

  /** `appendToLog` of a note. */
  function LogNote(b: Browser, text: string): (b': Browser)
    ensures b.halted ==> b' == b
    ensures b'.sent == b.sent
    ensures !b.halted ==> b' == b.(log := b.log + [Note(text)])
  {
    if b.halted then b else b.(log := b.log + [Note(text)])
  }

  /** The socket `ctx.wsSrv` refers to: the last one created. */
  predicate HasSocket(b: Browser) {
    |b.sockets| > 0
  }

  /** A send would go through: the program runs and the current socket is past connecting. */
  predicate CanSend(b: Browser) {
    !b.halted && HasSocket(b) && b.sockets[|b.sockets| - 1].state != Connecting
  }

  /**
    `sendToWs(getDispenserID(), req)`: the request goes out on the current
    socket addressed to the page's dispenser id, and is logged. The
    browser drops what is sent on a closing or closed socket without an
    error, so such sends are recorded but never arrive.
   */
  function SendToWs(b: Browser, req: Request): (b': Browser)
    ensures b.halted ==> b' == b
    ensures CanSend(b) ==> !b'.halted && b'.sent == b.sent + [Sent(|b.sockets| - 1, DispenserId(b.dom), req)]
    ensures !b.halted && !CanSend(b) ==> b'.halted && b'.sent == b.sent
    ensures b.sent <= b'.sent
    ensures b'.wsConn == b.wsConn && b'.sockets == b.sockets && b'.dom == b.dom
  {
    if b.halted then b
    else if !CanSend(b) then b.(halted := true)
    else b.(sent := b.sent + [Sent(|b.sockets| - 1, DispenserId(b.dom), req)],
            log := b.log + [RequestLine(req)])
  }

  /** The address `Connect` opens. */
  function BrokerUrl(d: Dom): string {
    "ws://" + Read(d, "txtBrokerIp") + ":" + Read(d, "txtBrokerPort") + "/ws"
  }

  /**
    `Connect`: when already connected, only a note; otherwise a new socket
    to the broker, and `wsConn` set at once, before the socket opens.
    `urlOk` is the browser's check of the address: the `WebSocket`
    constructor throws on an address it cannot parse (an empty host, a
    port past 65535), which ends the program after the "Connecting.." note
    and before `wsConn` is set.
   */
  function Connect(b: Browser, urlOk: string -> bool): (b': Browser)
    ensures b.halted ==> b' == b
    ensures !b.halted && b.wsConn ==> b' == b.(log := b.log + [Note("Already connected!")])
    ensures !b.halted && !b.wsConn && !urlOk(BrokerUrl(b.dom)) ==>
              b' == b.(log := b.log + [Note("Connecting..")], halted := true)
    ensures !b.halted && !b.wsConn && urlOk(BrokerUrl(b.dom)) ==>
              && b'.wsConn && b'.sockets == b.sockets + [Socket(BrokerUrl(b.dom), Connecting)]
              && b'.sent == b.sent && b'.log == b.log + [Note("Connecting..")] && !b'.halted
  {
    if b.halted then b
    else if b.wsConn then LogNote(b, "Already connected!")
    else
      var b1 := LogNote(b, "Connecting..");
      if !urlOk(BrokerUrl(b.dom)) then b1.(halted := true)
      else b1.(sockets := b1.sockets + [Socket(BrokerUrl(b.dom), Connecting)], wsConn := true)
  }

  /** What `close()` does to a socket's state. */
  function CloseState(s: SocketState): SocketState {
    match s
    case Connecting => Closing
    case Open => Closing
    case other => other
  }

  /**
    `Disconnect`: closes the current socket and clears `wsConn`, whatever
    the flag was. With no socket yet the call is made on `undefined`.
   */
  function Disconnect(b: Browser): (b': Browser)
    ensures b.halted ==> b' == b
    ensures !b.halted && !HasSocket(b) ==> b'.halted
    ensures !b.halted && HasSocket(b) ==>
              && !b'.wsConn && !b'.halted && b'.sent == b.sent
              && b'.log == b.log + [Note("Disconnected!")] && |b'.sockets| == |b.sockets|
              && b'.sockets[|b.sockets| - 1].state == CloseState(b.sockets[|b.sockets| - 1].state)
  {
    if b.halted then b
    else if !HasSocket(b) then b.(halted := true)
    else
      var k := |b.sockets| - 1;
      var b1 := b.(sockets := b.sockets[k := b.sockets[k].(state := CloseState(b.sockets[k].state))], wsConn := false);
      LogNote(b1, "Disconnected!")
  }

  /** The body of a `CliToSrv` report: its oneof, reduced to the two cases the controller acts on. */
  datatype ReportBody = PidDebug(row: PidRow) | EepromRead(eeprom: Eeprom.EepromReport) | OtherReport

  /** A decoded report with its text form (`String()`). */
  datatype Report = Report(text: string, body: ReportBody)

  datatype PidRow = PidRow(run: int, counter: int, time: int, sp: int, cv: int, err: int,
                           integ: int, deriv: int, p: int, i: int, d: int, pv: int)

  /** The twelve values of a PID log row; the run is shown counting from 1. */
  function PidColumns(r: PidRow): (cols: seq<int>)
    ensures |cols| == 12 && cols[0] == r.run + 1 && cols[11] == r.pv
  {
    [r.run + 1, r.counter, r.time, r.sp, r.cv, r.err, r.integ, r.deriv, r.p, r.i, r.d, r.pv]
  }

  function Occurrences(s: string, c: char): nat {
    if |s| == 0 then 0 else (if s[0] == c then 1 else 0) + Occurrences(s[1..], c)
  }

  /** Numbers joined by tabs and ended by a line feed. */
  function JoinRow(cols: seq<int>): (t: string)
    requires |cols| > 0
    ensures |t| > 0 && t[|t| - 1] == '\n'
    decreases |cols|
  {
    if |cols| == 1 then FormatInt(cols[0]) + "\n"
    else FormatInt(cols[0]) + "\t" + JoinRow(cols[1..])
  }

  /** The line `appendToPidLog` adds. */
  function PidRowText(r: PidRow): string {
    JoinRow(PidColumns(r))
  }

  /** A numeral holds neither tabs nor line feeds. */
  lemma FormatIntPlain(x: int)
    ensures Occurrences(FormatInt(x), '\t') == 0 && Occurrences(FormatInt(x), '\n') == 0
  {
    var s := FormatInt(x);
    FormatIntChars(x);
    NoOccurrences(s, '\t');
    NoOccurrences(s, '\n');
  }

  /** A numeral is made of digits and a minus sign. */
  lemma FormatIntChars(x: int)
    ensures forall i :: 0 <= i < |FormatInt(x)| ==> FormatInt(x)[i] == '-' || IsDigit(FormatInt(x)[i])
  {
    var s := FormatInt(x);
    if x < 0 {
      forall i | 0 <= i < |s| ensures s[i] == '-' || IsDigit(s[i]) {
        if i > 0 { assert s[i] == FormatDecimal(-x)[i - 1]; }
      }
    }
  }

  lemma {:induction false} NoOccurrences(s: string, c: char)
    requires c != '-' && !IsDigit(c)
    requires forall i :: 0 <= i < |s| ==> s[i] == '-' || IsDigit(s[i])
    ensures Occurrences(s, c) == 0
    decreases |s|
  {
    if |s| > 0 {
      NoOccurrences(s[1..], c);
    }
  }

  lemma {:induction false} OccurrencesAppend(a: string, b: string, c: char)
    ensures Occurrences(a + b, c) == Occurrences(a, c) + Occurrences(b, c)
    decreases |a|
  {
    if |a| == 0 {
      assert a + b == b;
    } else {
      assert (a + b)[1..] == a[1..] + b;
      OccurrencesAppend(a[1..], b, c);
    }
  }

  /** A joined row has one tab between consecutive columns and one line feed, at its end. */
  lemma {:induction false} JoinRowShape(cols: seq<int>)
    requires |cols| > 0
    ensures Occurrences(JoinRow(cols), '\t') == |cols| - 1
    ensures Occurrences(JoinRow(cols), '\n') == 1
    decreases |cols|
  {
    FormatIntPlain(cols[0]);
    if |cols| == 1 {
      OccurrencesAppend(FormatInt(cols[0]), "\n", '\t');
      OccurrencesAppend(FormatInt(cols[0]), "\n", '\n');
    } else {
      JoinRowShape(cols[1..]);
      var head := FormatInt(cols[0]) + "\t";
      OccurrencesAppend(FormatInt(cols[0]), "\t", '\t');
      OccurrencesAppend(FormatInt(cols[0]), "\t", '\n');
      OccurrencesAppend(head, JoinRow(cols[1..]), '\t');
      OccurrencesAppend(head, JoinRow(cols[1..]), '\n');
    }
  }

  /** The PID log line has twelve tab-separated columns and ends the line. */
  lemma PidRowShape(r: PidRow)
    ensures Occurrences(PidRowText(r), '\t') == 11 && Occurrences(PidRowText(r), '\n') == 1
    ensures PidRowText(r)[|PidRowText(r)| - 1] == '\n'
  {
    JoinRowShape(PidColumns(r));
  }

  /** Reference reading of a row: the text cut at every `sep`, as a spreadsheet reads a tab-separated line. */
  function SplitAt(s: string, sep: char): (parts: seq<string>)
    ensures |parts| >= 1
    decreases |s|
  {
    if |s| == 0 then [""]
    else
      var rest := SplitAt(s[1..], sep);
      if s[0] == sep then [""] + rest else [[s[0]] + rest[0]] + rest[1..]
  }

  /** Text without `sep` is one field. */
  lemma {:induction false} SplitPlain(a: string, sep: char)
    requires forall i :: 0 <= i < |a| ==> a[i] != sep
    ensures SplitAt(a, sep) == [a]
    decreases |a|
  {
    if |a| > 0 {
      SplitPlain(a[1..], sep);
      assert [a[0]] + a[1..] == a;
    }
  }

  /** A field without `sep` followed by `sep` is cut off as the first field. */
  lemma {:induction false} SplitField(a: string, sep: char, b: string)
    requires forall i :: 0 <= i < |a| ==> a[i] != sep
    ensures SplitAt(a + [sep] + b, sep) == [a] + SplitAt(b, sep)
    decreases |a|
  {
    var t := a + [sep] + b;
    if |a| == 0 {
      assert t == [sep] + b;
      assert t[1..] == b;
    } else {
      assert t[0] == a[0];
      assert t[1..] == a[1..] + [sep] + b;
      SplitField(a[1..], sep, b);
      assert [a[0]] + a[1..] == a;
    }
  }

  /** A joined row, without its line feed, splits at its tabs back into the columns' numerals. */
  lemma {:induction false} JoinRowFields(cols: seq<int>)
    requires |cols| > 0
    ensures var t := JoinRow(cols);
            var fields := SplitAt(t[..|t| - 1], '\t');
            |fields| == |cols| && forall i :: 0 <= i < |cols| ==> fields[i] == FormatInt(cols[i])
    decreases |cols|
  {
    var head := FormatInt(cols[0]);
    FormatIntChars(cols[0]);
    var t := JoinRow(cols);
    if |cols| == 1 {
      assert t[..|t| - 1] == head;
      SplitPlain(head, '\t');
    } else {
      var rest := JoinRow(cols[1..]);
      JoinRowFields(cols[1..]);
      assert t[..|t| - 1] == head + ['\t'] + rest[..|rest| - 1];
      SplitField(head, '\t', rest[..|rest| - 1]);
      var fields := SplitAt(t[..|t| - 1], '\t');
      forall i | 0 <= i < |cols| ensures fields[i] == FormatInt(cols[i]) {
        if i > 0 { assert cols[1..][i - 1] == cols[i]; }
      }
    }
  }

  /** Field i of the PID log line `appendToPidLog` adds is the numeral of column i. */
  lemma PidRowFields(r: PidRow)
    ensures var t := PidRowText(r);
            var fields := SplitAt(t[..|t| - 1], '\t');
            |fields| == 12 && forall i :: 0 <= i < 12 ==> fields[i] == FormatInt(PidColumns(r)[i])
  {
    JoinRowFields(PidColumns(r));
  }

  /**
    `receiveFromWs`: a frame that is not a JSON envelope, or whose bytes do
    not decode as a report, is dropped; so is a report from any dispenser
    but the one the page shows. Otherwise the report is logged, and a PID
    debug report adds a row to the PID log while an EEPROM report is shown
    on the page. The bytes are whatever the base64 decoder produced, its
    error ignored; `decodeReport` stands for `proto.Unmarshal`.
   */
  function ReceiveFromWs(b: Browser, f: Frame, decodeReport: seq<byte> -> Option<Report>): (b': Browser)
    ensures b'.sent == b.sent && b'.sockets == b.sockets && b'.wsConn == b.wsConn
    ensures b.halted || f.Malformed? ==> b' == b
    ensures f.Json? && f.env.id != DispenserId(b.dom) ==> b' == b
    ensures f.Json? && decodeReport(Base64.Decode(f.env.binary).data).None? ==> b' == b
  {
    if b.halted then b
    else match f
      case Malformed(_) => b
      case Json(env) =>
        match decodeReport(Base64.Decode(env.binary).data)
        case None => b
        case Some(rpt) =>
          if env.id != DispenserId(b.dom) then b
          else
            var b1 := b.(log := b.log + [Incoming(env.id, rpt.text)]);
            match rpt.body
            case PidDebug(row) =>
              b1.(dom := Write(b1.dom, "txtPidArea", Read(b1.dom, "txtPidArea") + PidRowText(row)))
            case EepromRead(e) =>
              var shown := Eeprom.Show(b1.dom, rpt.text, e);
              b1.(dom := shown.dom, halted := !shown.ok)
            case OtherReport => b1
  }

  /** What the browser reports on one socket. */
  datatype SocketEvent = Opened | CloseEvent | ErrorEvent | MessageEvent(frame: Frame)

  /**
    The listeners `Connect` attaches to every socket it creates. They stay
    attached after `Disconnect` and a later `Connect`, so a close or error
    on an old socket clears `wsConn` too. The browser fires `open` only on
    a connecting socket, messages only on an open one, and nothing after
    the socket is closed.
   */
  function OnSocket(b: Browser, k: nat, e: SocketEvent, decodeReport: seq<byte> -> Option<Report>): (b': Browser)
    ensures b'.sent == b.sent && |b'.sockets| == |b.sockets|
    ensures b.halted || k >= |b.sockets| ==> b' == b
    ensures !b.halted && k < |b.sockets| && b.sockets[k].state != Closed && (e.CloseEvent? || e.ErrorEvent?) ==>
              !b'.wsConn && b'.sockets[k].state == Closed
  {
    if b.halted || k >= |b.sockets| then b
    else
      var s := b.sockets[k];
      match e
      case Opened =>
        if s.state != Connecting then b
        else LogNote(b.(sockets := b.sockets[k := s.(state := Open)]), "Connected!")
      case CloseEvent =>
        if s.state == Closed then b
        else b.(sockets := b.sockets[k := s.(state := Closed)], wsConn := false)
      case ErrorEvent =>
        if s.state == Closed then b
        else LogNote(b.(sockets := b.sockets[k := s.(state := Closed)], wsConn := false), "Connection failed!")
      case MessageEvent(f) =>
        if s.state != Open then b else ReceiveFromWs(b, f, decodeReport)
  }

  /** `Connect` while connected opens no socket and leaves the flag set. */
  lemma ConnectWhenConnected(b: Browser, urlOk: string -> bool)
    requires !b.halted && b.wsConn
    ensures Connect(b, urlOk).sockets == b.sockets && Connect(b, urlOk).wsConn
    ensures Connect(b, urlOk).log == b.log + [Note("Already connected!")]
  {
  }

  /**
    `Connect` sets the flag before the socket opens: it is set while the new
    socket is still connecting. An address the browser rejects ends the
    program with the flag still clear and no new socket.
   */
  lemma ConnectSetsFlagEarly(b: Browser, urlOk: string -> bool)
    requires !b.halted && !b.wsConn
    ensures var b' := Connect(b, urlOk);
            urlOk(BrokerUrl(b.dom)) ==> b'.wsConn && b'.sockets[|b'.sockets| - 1].state == Connecting && !CanSend(b')
    ensures var b' := Connect(b, urlOk);
            !urlOk(BrokerUrl(b.dom)) ==> b'.halted && !b'.wsConn && b'.sockets == b.sockets
  {
  }

  /** `Disconnect` before any `Connect` ends the program. */
  lemma DisconnectBeforeConnect(d: Dom)
    ensures Disconnect(Init(d)).halted
  {
  }

  /**
    A close event from a socket left over from an earlier connection
    clears `wsConn` although the current socket is open.
   */
  lemma StaleCloseClearsFlag(b: Browser, decodeReport: seq<byte> -> Option<Report>)
    requires !b.halted && |b.sockets| == 2
    requires b.sockets[0].state == Closing && b.sockets[1].state == Open && b.wsConn
    ensures var b' := OnSocket(b, 0, CloseEvent, decodeReport);
            !b'.wsConn && b'.sockets[1].state == Open && CanSend(b')
  {
  }

  /** A report for the shown dispenser is logged; a PID row lands at the end of the PID log. */
  lemma ReceivePidRow(b: Browser, id: string, binary: string, decodeReport: seq<byte> -> Option<Report>)
    requires !b.halted && id == DispenserId(b.dom)
    requires decodeReport(Base64.Decode(binary).data).Some?
    requires decodeReport(Base64.Decode(binary).data).value.body.PidDebug?
    ensures var rpt := decodeReport(Base64.Decode(binary).data).value;
            var b' := ReceiveFromWs(b, Json(Envelope(id, binary)), decodeReport);
            && b'.log == b.log + [Incoming(id, rpt.text)]
            && Read(b'.dom, "txtPidArea") == Read(b.dom, "txtPidArea") + PidRowText(rpt.body.row)
            && !b'.halted
  {
  }

  /** An EEPROM report for the shown dispenser is displayed; the program ends exactly when the display panics. */
  lemma ReceiveEeprom(b: Browser, id: string, binary: string, decodeReport: seq<byte> -> Option<Report>)
    requires !b.halted && id == DispenserId(b.dom)
    requires decodeReport(Base64.Decode(binary).data).Some?
    requires decodeReport(Base64.Decode(binary).data).value.body.EepromRead?
    ensures var rpt := decodeReport(Base64.Decode(binary).data).value;
            var b' := ReceiveFromWs(b, Json(Envelope(id, binary)), decodeReport);
            var shown := Eeprom.Show(b.dom, rpt.text, rpt.body.eeprom);
            && b'.log == b.log + [Incoming(id, rpt.text)]
            && b'.dom == shown.dom && (b'.halted <==> !shown.ok)
  {
  }
}
