/** src/host/iouring_loop.c, what the completion handlers do to one connection. The answers
    of the kernel, the TLS library and the request feed are inputs. WebSocket promotion is
    not part of this model. */
module IoConn {

  datatype State = Free | TlsHandshake | Receiving | Sending

  /** The operations a connection can have in flight. */
  datatype Kind = RecvOp | SendOp | PollOp

  datatype Conn = Conn(fd: int, state: State, recvPending: bool, sendPending: bool, pollPending: bool,
                       buf: string, len: nat, off: nat, ssl: bool)

  const FREE := Conn(-1, Free, false, false, false, "", 0, 0, false)

  /** How a connection ended, with the response it was to deliver. */
  datatype End = Open | Finished(response: string) | Aborted(response: string)

  /** What a handler does: the connection after it, the operations it submits, the bytes the
      TLS library takes, whether the connection is closed, and the return code. */
  datatype Effect = Effect(c: Conn, ops: seq<Kind>, wrote: string, end: End, rc: int)

  datatype Feed = FeedFailed | FeedMore | FeedReply(text: string)

  /** The answers met while handling one completion: is a submission entry free, the
      results of SSL_accept, SSL_read and the SSL_write calls, and of the request feed. */
  datatype Oracle = Oracle(sqe: bool, handshake: int, read: int, feed: Feed, writes: seq<int>)

  /** A reply is not empty: every response has a status line. */
  predicate Honest(o: Oracle) {
    o.feed.FeedReply? ==> o.feed.text != ""
  }

  const BAD_REQUEST := "HTTP/1.1 400 Bad Request\r\nContent-Type: text/plain\r\n"
    + "Content-Length: 12\r\nConnection: close\r\n\r\nbad request\n"

  // ----- the C functions ------------------------------------------------------------------

  function Plain(c: Conn, rc: int): Effect {
    Effect(c, [], "", Open, rc)
  }

  function Response(c: Conn): string {
    if c.len <= |c.buf| then c.buf[..c.len] else c.buf
  }

  /** close_conn */
  function Close(c: Conn, finished: bool): Effect {
    if c.state == Free then Plain(c, 0)
    else Effect(FREE, [], "", if finished then Finished(Response(c)) else Aborted(Response(c)), 0)
  }

  /** submit_poll */
  function SubmitPoll(c: Conn, sqe: bool): Effect {
    if c.pollPending then Plain(c, 0)
    else if !sqe then Plain(c, -1)
    else Effect(c.(pollPending := true), [PollOp], "", Open, 0)
  }

  /** submit_recv */
  function SubmitRecv(c: Conn, sqe: bool): Effect {
    if c.recvPending || c.pollPending || (c.state != Receiving && c.state != TlsHandshake) then Plain(c, 0)
    else if c.ssl then SubmitPoll(c, sqe)
    else if !sqe then Plain(c, -1)
    else Effect(c.(recvPending := true), [RecvOp], "", Open, 0)
  }

  /** SSL_write takes at most what it is given. */
  function Taken(n: nat, room: nat): nat {
    if n < room then n else room
  }

  /** handle_send_complete without WebSocket promotion. */
  function SendComplete(c: Conn): Effect {
    Close(c, true)
  }

  function Wrote(chunk: string, e: Effect): Effect {
    e.(wrote := chunk + e.wrote)
  }

  /** tls_drive_write; the list of results ends where the library fails. */
  function DriveWrite(c: Conn, writes: seq<int>, sqe: bool): Effect
    requires c.len <= |c.buf|
    decreases |writes|, 0
  {
    if !c.ssl || c.off >= c.len then Plain(c, 0)
    else if writes == [] || writes[0] < 0 then Plain(c, -1)
    else if writes[0] == 0 then SubmitPoll(c, sqe)
    else
      AfterWrite(c, Taken(writes[0], c.len - c.off), writes[1..], sqe)
  }

  /** The library took `n` bytes: the connection is done, or the write goes on. */
  function AfterWrite(c: Conn, n: nat, rest: seq<int>, sqe: bool): Effect
    requires c.off + n <= c.len <= |c.buf|
    decreases |rest|, 1
  {
    var next := c.(off := c.off + n);
    Wrote(c.buf[c.off..next.off], if next.off >= next.len then SendComplete(next) else DriveWrite(next, rest, sqe))
  }

  /** submit_send */
  function SubmitSend(c: Conn, writes: seq<int>, sqe: bool): Effect
    requires c.len <= |c.buf|
  {
    if c.sendPending || c.pollPending || c.off >= c.len then Plain(c, 0)
    else if c.ssl then DriveWrite(c, writes, sqe)
    else if !sqe then Plain(c, -1)
    else Effect(c.(sendPending := true), [SendOp], "", Open, 0)
  }

  /** The response in the buffer and begin_send_buf. */
  function BeginSend(c: Conn, text: string, o: Oracle): Effect {
    SubmitSend(c.(buf := text, len := |text|, off := 0, state := Sending), o.writes, o.sqe)
  }

  /** begin_bad_request_plain */
  function BeginBadRequest(c: Conn, cap: nat, o: Oracle): Effect {
    if |BAD_REQUEST| >= cap then Plain(c, -1) else BeginSend(c, BAD_REQUEST, o)
  }

  /** handle_http_bytes */
  function HttpBytes(c: Conn, n: nat, cap: nat, o: Oracle): Effect {
    if n == 0 then BeginBadRequest(c, cap, o)
    else match o.feed
         case FeedFailed => Plain(c, -1)
         case FeedMore => SubmitRecv(c, o.sqe)
         case FeedReply(text) => BeginSend(c, text, o)
  }

  /** handle_tls_poll */
  function TlsPoll(c: Conn, cap: nat, o: Oracle): Effect
    requires c.len <= |c.buf|
  {
    match c.state
    case TlsHandshake =>
      if o.handshake == 1 then SubmitRecv(c.(state := Receiving), o.sqe)
      else if o.handshake == 0 then SubmitPoll(c, o.sqe)
      else Plain(c, -1)
    case Receiving =>
      if o.read > 0 then HttpBytes(c, o.read, cap, o)
      else if o.read == 0 then SubmitPoll(c, o.sqe)
      else if o.read == -2 then BeginBadRequest(c, cap, o)
      else Plain(c, -1)
    case Sending => DriveWrite(c, o.writes, o.sqe)
    case Free => Plain(c, 0)
  }

  /** if (handler(...) != 0) close_conn(...) */
  function OrClose(e: Effect): Effect {
    if e.rc == 0 then e else Close(e.c, false).(ops := e.ops, wrote := e.wrote)
  }

  /** The completion switch for one connection; a negative result closes. */
  function OnRecv(c: Conn, res: int, cap: nat, o: Oracle): Effect {
    if c.state != Receiving then Plain(c, 0)
    else
      var d := c.(recvPending := false);
      if res < 0 then Close(d, false) else OrClose(HttpBytes(d, res, cap, o))
  }

  function OnSend(c: Conn, res: int, o: Oracle): Effect
    requires c.len <= |c.buf| && c.off + res <= |c.buf|
  {
    if c.state == Free then Plain(c, 0)
    else
      var d := c.(sendPending := false);
      if res < 0 then Close(d, false)
      else
        var next := d.(off := d.off + res);
        Wrote(c.buf[c.off..next.off],
              if next.off >= next.len then OrClose(SendComplete(next)) else OrClose(SubmitSend(next, o.writes, o.sqe)))
  }

  function OnPoll(c: Conn, res: int, cap: nat, o: Oracle): Effect
    requires c.len <= |c.buf|
  {
    if c.state == Free then Plain(c, 0)
    else
      var d := c.(pollPending := false);
      if res < 0 then Close(d, false)
      else if d.ssl then OrClose(TlsPoll(d, cap, o))
      else Plain(d, 0)
  }

  /** accept_one from the allocated slot on. */
  function Opened(fd: int, tls: bool, sslMade: bool, o: Oracle): Effect {
    var c := FREE.(fd := fd, state := Receiving);
    if !tls then OrClose(SubmitRecv(c, o.sqe))
    else if !sslMade then Close(c, false)
    else
      var d := c.(ssl := true, state := TlsHandshake);
      if o.handshake == 1 then OrClose(SubmitRecv(d.(state := Receiving), o.sqe))
      else if o.handshake == 0 then OrClose(SubmitPoll(d, o.sqe))
      else Close(d, false)
  }

  // ----- what they keep -------------------------------------------------------------------

  predicate Quiet(c: Conn) {
    !c.recvPending && !c.sendPending && !c.pollPending
  }

  /** An occupied slot between its completion and the next submission; `sent` is what the
      peer was handed. */
  predicate Ready(c: Conn, sent: string) {
    && c.state != Free && c.fd >= 0 && Quiet(c)
    && c.off <= c.len <= |c.buf| && sent == c.buf[..c.off]
    && (c.state == Sending ==> c.off < c.len) && (c.state != Sending ==> c.len == 0)
    && (c.state == TlsHandshake ==> c.ssl)
  }

  /** The one kind of operation a connection waits for. */
  function Awaited(c: Conn): Kind {
    if c.ssl then PollOp else if c.state == Sending then SendOp else RecvOp
  }

  predicate Flag(c: Conn, k: Kind) {
    match k
    case RecvOp => c.recvPending
    case SendOp => c.sendPending
    case PollOp => c.pollPending
  }

  function Lowered(c: Conn): Conn {
    c.(recvPending := false, sendPending := false, pollPending := false)
  }

  /** An occupied slot between two steps of the loop: exactly the awaited operation. */
  predicate Waits(c: Conn, sent: string) {
    Ready(Lowered(c), sent) && forall k: Kind :: Flag(c, k) <==> k == Awaited(c)
  }

  predicate EndOk(end: End, sent: string) {
    && (end.Finished? ==> sent == end.response)
    && (end.Aborted? ==> sent <= end.response)
  }

  /** A handler called on a ready connection either submits the one awaited operation, or
      fails without submitting, or closes without submitting. */
  predicate Sound(e: Effect, sent: string) {
    if e.end.Open? then
      if e.rc == 0 then Waits(e.c, sent + e.wrote) && e.ops == [Awaited(e.c)]
      else Ready(e.c, sent + e.wrote) && e.ops == []
    else e.c == FREE && e.ops == [] && e.rc == 0 && EndOk(e.end, sent + e.wrote)
  }

  /** Sound, and nothing left to close. */
  predicate Settled(e: Effect, sent: string) {
    Sound(e, sent) && e.rc == 0
  }

  lemma ReadyPlain(c: Conn, sent: string)
    requires Ready(c, sent)
    ensures Sound(Plain(c, -1), sent)
  {
    assert sent + "" == sent;
  }

  lemma PollSound(c: Conn, sent: string, sqe: bool)
    requires Ready(c, sent) && c.ssl
    ensures Sound(SubmitPoll(c, sqe), sent)
  {
    assert sent + "" == sent;
    assert Lowered(c.(pollPending := true)) == c;
  }

  lemma RecvSound(c: Conn, sent: string, sqe: bool)
    requires Ready(c, sent) && c.state != Sending && (c.state == TlsHandshake ==> c.ssl)
    ensures Sound(SubmitRecv(c, sqe), sent)
  {
    assert sent + "" == sent;
    if c.ssl { PollSound(c, sent, sqe); } else { assert Lowered(c.(recvPending := true)) == c; }
  }

  /** Closing is always allowed; as finished only when everything was sent. */
  lemma CloseSound(c: Conn, sent: string, finished: bool)
    requires c.state != Free && c.off <= c.len <= |c.buf| && sent == c.buf[..c.off]
    requires finished ==> c.off == c.len
    ensures Settled(Close(c, finished), sent)
  {
    assert sent + "" == sent;
  }

  lemma WroteSound(chunk: string, e: Effect, sent: string)
    requires Sound(e, sent + chunk)
    ensures Sound(Wrote(chunk, e), sent)
  {
    assert sent + (chunk + e.wrote) == sent + chunk + e.wrote;
  }

  lemma {:induction false} WriteSound(c: Conn, sent: string, writes: seq<int>, sqe: bool)
    requires Ready(c, sent) && c.ssl && c.state == Sending
    ensures Sound(DriveWrite(c, writes, sqe), sent)
    decreases |writes|
  {
    hide Sound, SubmitPoll, SendComplete, Wrote;
    if writes == [] || writes[0] < 0 {
      ReadyPlain(c, sent);
    } else if writes[0] == 0 {
      PollSound(c, sent, sqe);
    } else {
      var next := c.(off := c.off + Taken(writes[0], c.len - c.off));
      var chunk := c.buf[c.off..next.off];
      assert sent + chunk == c.buf[..next.off];
      if next.off >= next.len {
        FinishSound(next, sent + chunk);
        WroteSound(chunk, SendComplete(next), sent);
      } else {
        WriteSound(next, sent + chunk, writes[1..], sqe);
        WroteSound(chunk, DriveWrite(next, writes[1..], sqe), sent);
      }
    }
  }

  lemma FinishSound(c: Conn, sent: string)
    requires c.state != Free && c.off == c.len <= |c.buf| && sent == c.buf[..c.off]
    ensures Settled(SendComplete(c), sent)
  {
    CloseSound(c, sent, true);
  }

  lemma SendSound(c: Conn, sent: string, writes: seq<int>, sqe: bool)
    requires Ready(c, sent) && c.state == Sending
    ensures Sound(SubmitSend(c, writes, sqe), sent)
  {
    assert sent + "" == sent;
    if c.ssl { WriteSound(c, sent, writes, sqe); } else { assert Lowered(c.(sendPending := true)) == c; }
  }

  lemma BeginSound(c: Conn, text: string, o: Oracle)
    requires Ready(c, "") && c.state != Sending && text != ""
    ensures Sound(BeginSend(c, text, o), "")
  {
    SendSound(c.(buf := text, len := |text|, off := 0, state := Sending), "", o.writes, o.sqe);
  }

  lemma BadRequestSound(c: Conn, cap: nat, o: Oracle)
    requires Ready(c, "") && c.state != Sending
    ensures Sound(BeginBadRequest(c, cap, o), "")
  {
    ReadyPlain(c, "");
    BeginSound(c, BAD_REQUEST, o);
  }

  lemma HttpSound(c: Conn, n: nat, cap: nat, o: Oracle)
    requires Ready(c, "") && c.state == Receiving && Honest(o)
    ensures Sound(HttpBytes(c, n, cap, o), "")
  {
    hide Sound, BeginBadRequest, SubmitRecv, BeginSend, Ready;
    ReadyPlain(c, "");
    BadRequestSound(c, cap, o);
    RecvSound(c, "", o.sqe);
    if o.feed.FeedReply? { BeginSound(c, o.feed.text, o); }
  }

  lemma TlsSound(c: Conn, sent: string, cap: nat, o: Oracle)
    requires Ready(c, sent) && c.ssl && Honest(o)
    ensures Sound(TlsPoll(c, cap, o), sent)
  {
    hide Sound, SubmitRecv, SubmitPoll, BeginBadRequest, HttpBytes, DriveWrite;
    ReadyPlain(c, sent);
    PollSound(c, sent, o.sqe);
    match c.state {
      case TlsHandshake => RecvSound(c.(state := Receiving), sent, o.sqe);
      case Receiving =>
        assert sent == "";
        if o.read > 0 { HttpSound(c, o.read, cap, o); }
        BadRequestSound(c, cap, o);
      case Sending => WriteSound(c, sent, o.writes, o.sqe);
    }
  }

  lemma OrCloseSettles(e: Effect, sent: string)
    requires Sound(e, sent)
    ensures Settled(OrClose(e), sent)
  {
    if e.rc != 0 {
      var s := sent + e.wrote;
      CloseSound(e.c, s, false);
    }
  }

  /** A completion of the awaited kind leaves the slot with exactly one operation again, or
      free with none. */
  lemma RecvSettles(c: Conn, sent: string, res: int, cap: nat, o: Oracle)
    requires Waits(c, sent) && Awaited(c) == RecvOp && Honest(o)
    ensures Settled(OnRecv(c, res, cap, o), sent)
  {
    hide Sound, HttpBytes, OrClose, Close;
    var d := c.(recvPending := false);
    assert Flag(c, SendOp) == Flag(c, PollOp) == false;
    assert d == Lowered(c) && sent == "";
    if res < 0 { CloseSound(d, sent, false); } else {
      HttpSound(d, res, cap, o);
      OrCloseSettles(HttpBytes(d, res, cap, o), sent);
    }
  }

  lemma SendSettles(c: Conn, sent: string, res: int, o: Oracle)
    requires Waits(c, sent) && Awaited(c) == SendOp && res <= c.len - c.off
    ensures Settled(OnSend(c, res, o), sent)
  {
    hide Sound, OrClose, Close, SendComplete, SubmitSend;
    var d := c.(sendPending := false);
    assert Flag(c, RecvOp) == Flag(c, PollOp) == false;
    assert d == Lowered(c);
    if res < 0 { CloseSound(d, sent, false); } else {
      var next := d.(off := d.off + res);
      var chunk := c.buf[c.off..next.off];
      assert sent + chunk == c.buf[..next.off];
      if next.off >= next.len {
        FinishSound(next, sent + chunk);
        OrCloseSettles(SendComplete(next), sent + chunk);
        WroteSound(chunk, OrClose(SendComplete(next)), sent);
      } else {
        SendSound(next, sent + chunk, o.writes, o.sqe);
        OrCloseSettles(SubmitSend(next, o.writes, o.sqe), sent + chunk);
        WroteSound(chunk, OrClose(SubmitSend(next, o.writes, o.sqe)), sent);
      }
    }
  }

  lemma PollSettles(c: Conn, sent: string, res: int, cap: nat, o: Oracle)
    requires Waits(c, sent) && Awaited(c) == PollOp && Honest(o)
    ensures Settled(OnPoll(c, res, cap, o), sent)
  {
    hide Sound, OrClose, Close, TlsPoll;
    var d := c.(pollPending := false);
    assert Flag(c, RecvOp) == Flag(c, SendOp) == false;
    assert d == Lowered(c);
    if res < 0 { CloseSound(d, sent, false); } else {
      TlsSound(d, sent, cap, o);
      OrCloseSettles(TlsPoll(d, cap, o), sent);
    }
  }

  lemma OpenedSettles(fd: nat, tls: bool, sslMade: bool, o: Oracle)
    ensures Settled(Opened(fd, tls, sslMade, o), "")
  {
    hide Sound, OrClose, Close, SubmitRecv, SubmitPoll;
    var c := FREE.(fd := fd, state := Receiving);
    var d := c.(ssl := true, state := TlsHandshake);
    var e := d.(state := Receiving);
    assert FREE.buf[..0] == "";
    RecvSound(c, "", o.sqe);
    OrCloseSettles(SubmitRecv(c, o.sqe), "");
    RecvSound(e, "", o.sqe);
    OrCloseSettles(SubmitRecv(e, o.sqe), "");
    PollSound(d, "", o.sqe);
    OrCloseSettles(SubmitPoll(d, o.sqe), "");
    CloseSound(c, "", false);
    CloseSound(d, "", false);
  }
}
