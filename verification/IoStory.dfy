/** The lives of the accepted connections as the completions alone tell them, without slots,
    operations or flags, and the event loop as a refinement of them. */
module IoStory {
  import opened IoConn
  import opened IoLoop

  /** One connection: in the TLS handshake, being asked, being told a response of which `n`
      bytes are out, or over, with the response it was to be told, what of it was sent, and
      whether it was told whole. */
  datatype Life = Shaking | Asking | Telling(text: string, n: nat) | Over(text: string, sent: string, whole: bool)

  function TextOf(l: Life): string {
    if l.Telling? || l.Over? then l.text else ""
  }

  function SentOf(l: Life): string {
    match l
    case Telling(text, n) => if n <= |text| then text[..n] else text
    case Over(_, sent, _) => sent
    case _ => ""
  }

  /** Closed before its time. */
  function Cut(l: Life): Life {
    if l.Over? then l else Over(TextOf(l), SentOf(l), false)
  }

  function OrCut(ok: bool, l: Life): Life {
    if ok then l else Cut(l)
  }

  /** The TLS library takes what it takes, until it fails, wants to wait or has it all. */
  function Write(text: string, n: nat, writes: seq<int>, sqe: bool): Life
    decreases |writes|
  {
    if writes == [] || writes[0] < 0 then Cut(Telling(text, n))
    else if writes[0] == 0 then OrCut(sqe, Telling(text, n))
    else if n + writes[0] >= |text| then Over(text, text, true)
    else Write(text, n + writes[0], writes[1..], sqe)
  }

  function Tell(cfg: Config, text: string, o: Oracle): Life {
    if cfg.tls then Write(text, 0, o.writes, o.sqe) else OrCut(o.sqe, Telling(text, 0))
  }

  /** The peer stopped asking: it is told so, if the buffer holds the text. */
  function Hushed(cfg: Config, o: Oracle): Life {
    if |BAD_REQUEST| >= cfg.cap then Cut(Asking) else Tell(cfg, BAD_REQUEST, o)
  }

  /** Some bytes of the request, or none. */
  function Hear(cfg: Config, n: nat, o: Oracle): Life {
    if n == 0 then Hushed(cfg, o)
    else match o.feed
         case FeedFailed => Cut(Asking)
         case FeedMore => OrCut(o.sqe, Asking)
         case FeedReply(text) => Tell(cfg, text, o)
  }

  function Shake(l: Life, o: Oracle): Life {
    if o.handshake == 1 then OrCut(o.sqe, Asking) else if o.handshake == 0 then OrCut(o.sqe, Shaking) else Cut(l)
  }

  function Born(cfg: Config, sslMade: bool, o: Oracle): Life {
    if !cfg.tls then OrCut(o.sqe, Asking) else if !sslMade then Cut(Shaking) else Shake(Shaking, o)
  }

  /** A completion with result `res`. */
  function Next(cfg: Config, l: Life, res: int, o: Oracle): Life {
    if res < 0 then Cut(l)
    else match l
         case Over(_, _, _) => l
         case Shaking => Shake(l, o)
         case Asking =>
           if !cfg.tls then Hear(cfg, res, o)
           else if o.read > 0 then Hear(cfg, o.read, o)
           else if o.read == 0 then OrCut(o.sqe, Asking)
           else if o.read == -2 then Hushed(cfg, o)
           else Cut(l)
         case Telling(text, n) =>
           if cfg.tls then Write(text, n, o.writes, o.sqe)
           else if n + res >= |text| then Over(text, text, true)
           else OrCut(o.sqe, Telling(text, n + res))
  }

  function Alive(lives: seq<Life>): nat {
    if lives == [] then 0 else Alive(lives[..|lives| - 1]) + if lives[|lives| - 1].Over? then 0 else 1
  }

  /** The lives in the order the connections were accepted; with `slots` of them alive no
      other begins. */
  function Turn(cfg: Config, slots: nat, lives: seq<Life>, ev: Event): seq<Life> {
    match ev
    case Tick => lives
    case AcceptDone(res, nonblock, sslMade, _, o) =>
      if res >= 0 && nonblock && Alive(lives) < slots then lives + [Born(cfg, sslMade, o)] else lives
    case ConnDone(_, _, id, res, o) =>
      if id < |lives| then lives[id := Next(cfg, lives[id], res, o)] else lives
  }

  function Story(cfg: Config, slots: nat, lives: seq<Life>, events: seq<Event>): seq<Life>
    decreases |events|
  {
    if events == [] then lives else Story(cfg, slots, Turn(cfg, slots, lives, events[0]), events[1..])
  }

  // ----- one connection ---------------------------------------------------------------------

  /** A ready connection in this phase of its life. */
  predicate Fits(cfg: Config, c: Conn, l: Life) {
    && c.ssl == cfg.tls
    && match l
       case Shaking => c.state == TlsHandshake && c.buf == "" && c.len == 0 && c.off == 0 && cfg.tls
       case Asking => c.state == Receiving && c.buf == "" && c.len == 0 && c.off == 0
       case Telling(text, n) => c.state == Sending && c.buf == text && c.len == |text| && c.off == n < |text|
       case Over(_, _, _) => false
  }

  predicate Rest(c: Conn) {
    Quiet(c) && c.state != Free
  }

  function EndOf(l: Life): End {
    if !l.Over? then Open else if l.whole then Finished(l.text) else Aborted(l.text)
  }

  /** A settled effect that leads to this life. */
  predicate Leads(cfg: Config, e: Effect, sent: string, l: Life) {
    && e.end == EndOf(l) && sent + e.wrote == SentOf(l)
    && if l.Over? then e.c == FREE else Fits(cfg, e.c, l)
  }

  lemma PlainLeads(cfg: Config, c: Conn, l: Life)
    requires Fits(cfg, c, l)
    ensures Leads(cfg, OrClose(Plain(c, -1)), SentOf(l), Cut(l))
    ensures Leads(cfg, Close(c, false), SentOf(l), Cut(l))
  {
    assert SentOf(l) + "" == SentOf(l);
    ResponseIs(cfg, c, l);
  }

  lemma ResponseIs(cfg: Config, c: Conn, l: Life)
    requires Fits(cfg, c, l)
    ensures Response(c) == TextOf(l) && c.state != Free
  {
    if l.Telling? { assert c.buf[..c.len] == l.text; }
  }

  lemma PollLeads(cfg: Config, c: Conn, l: Life, sqe: bool)
    requires Fits(cfg, c, l) && Quiet(c)
    ensures Leads(cfg, OrClose(SubmitPoll(c, sqe)), SentOf(l), OrCut(sqe, l))
  {
    assert SentOf(l) + "" == SentOf(l);
    ResponseIs(cfg, c, l);
  }

  lemma RecvLeads(cfg: Config, c: Conn, l: Life, sqe: bool)
    requires Fits(cfg, c, l) && Quiet(c) && l.Asking?
    ensures Leads(cfg, OrClose(SubmitRecv(c, sqe)), SentOf(l), OrCut(sqe, l))
  {
    if c.ssl { PollLeads(cfg, c, l, sqe); } else { assert "" + "" == ""; }
  }

  lemma WroteLeads(cfg: Config, chunk: string, e: Effect, sent: string, l: Life)
    requires Leads(cfg, OrClose(e), sent + chunk, l)
    ensures Leads(cfg, OrClose(Wrote(chunk, e)), sent, l)
  {
    assert sent + (chunk + e.wrote) == sent + chunk + e.wrote;
  }

  lemma {:induction false} WriteLeads(cfg: Config, c: Conn, l: Life, writes: seq<int>, sqe: bool)
    requires Fits(cfg, c, l) && Quiet(c) && l.Telling? && cfg.tls
    ensures Leads(cfg, OrClose(DriveWrite(c, writes, sqe)), SentOf(l), Write(l.text, l.n, writes, sqe))
    decreases |writes|
  {
    hide SubmitPoll, SendComplete, OrClose, Leads, Wrote;
    if writes == [] || writes[0] < 0 {
      PlainLeads(cfg, c, l);
    } else if writes[0] == 0 {
      PollLeads(cfg, c, l, sqe);
    } else {
      var n := Taken(writes[0], c.len - c.off);
      var next := c.(off := c.off + n);
      var chunk := c.buf[c.off..next.off];
      assert SentOf(l) + chunk == l.text[..next.off];
      if next.off >= next.len {
        assert l.text[..|l.text|] == l.text;
        DoneLeads(cfg, next, l.text);
        WroteLeads(cfg, chunk, SendComplete(next), SentOf(l), Over(l.text, l.text, true));
      } else {
        WriteLeads(cfg, next, Telling(l.text, next.off), writes[1..], sqe);
        WroteLeads(cfg, chunk, DriveWrite(next, writes[1..], sqe), SentOf(l), Write(l.text, next.off, writes[1..], sqe));
      }
    }
  }

  lemma DoneLeads(cfg: Config, c: Conn, text: string)
    requires c.state == Sending && c.buf == text && c.len == |text|
    ensures Leads(cfg, OrClose(SendComplete(c)), text, Over(text, text, true))
  {
    assert text + "" == text && text[..|text|] == text;
  }

  lemma SendLeads(cfg: Config, c: Conn, l: Life, writes: seq<int>, sqe: bool)
    requires Fits(cfg, c, l) && Quiet(c) && l.Telling?
    ensures Leads(cfg, OrClose(SubmitSend(c, writes, sqe)), SentOf(l),
                  if cfg.tls then Write(l.text, l.n, writes, sqe) else OrCut(sqe, l))
  {
    if c.ssl {
      WriteLeads(cfg, c, l, writes, sqe);
    } else {
      hide DriveWrite, Write;
      assert SentOf(l) + "" == SentOf(l);
      ResponseIs(cfg, c, l);
    }
  }

  lemma TellLeads(cfg: Config, c: Conn, text: string, o: Oracle)
    requires Fits(cfg, c, Asking) && Quiet(c) && text != ""
    ensures Leads(cfg, OrClose(BeginSend(c, text, o)), "", Tell(cfg, text, o))
  {
    hide SubmitSend, OrClose, Leads, Write;
    SendLeads(cfg, c.(buf := text, len := |text|, off := 0, state := Sending), Telling(text, 0), o.writes, o.sqe);
  }

  lemma HushLeads(cfg: Config, c: Conn, o: Oracle)
    requires Fits(cfg, c, Asking) && Quiet(c)
    ensures Leads(cfg, OrClose(BeginBadRequest(c, cfg.cap, o)), "", Hushed(cfg, o))
  {
    hide BeginSend, OrClose, Leads, Tell;
    PlainLeads(cfg, c, Asking);
    TellLeads(cfg, c, BAD_REQUEST, o);
  }

  lemma HearLeads(cfg: Config, c: Conn, n: nat, o: Oracle)
    requires Fits(cfg, c, Asking) && Quiet(c) && Honest(o)
    ensures Leads(cfg, OrClose(HttpBytes(c, n, cfg.cap, o)), "", Hear(cfg, n, o))
  {
    hide BeginSend, BeginBadRequest, SubmitRecv, OrClose, Leads, Tell, Hushed;
    PlainLeads(cfg, c, Asking);
    HushLeads(cfg, c, o);
    RecvLeads(cfg, c, Asking, o.sqe);
    if o.feed.FeedReply? { TellLeads(cfg, c, o.feed.text, o); }
  }

  lemma TlsLeads(cfg: Config, c: Conn, l: Life, o: Oracle)
    requires Fits(cfg, c, l) && Quiet(c) && Honest(o) && cfg.tls
    ensures Leads(cfg, OrClose(TlsPoll(c, cfg.cap, o)), SentOf(l), Next(cfg, l, 0, o))
  {
    hide BeginBadRequest, HttpBytes, SubmitRecv, SubmitPoll, DriveWrite, OrClose, Leads, Write, Hear, Hushed;
    PlainLeads(cfg, c, l);
    match l {
      case Shaking =>
        RecvLeads(cfg, c.(state := Receiving), Asking, o.sqe);
        PollLeads(cfg, c, l, o.sqe);
      case Asking =>
        if o.read > 0 { HearLeads(cfg, c, o.read, o); }
        PollLeads(cfg, c, l, o.sqe);
        HushLeads(cfg, c, o);
      case Telling(text, n) => WriteLeads(cfg, c, l, o.writes, o.sqe);
    }
  }

  lemma WroteOrClose(chunk: string, e: Effect)
    ensures OrClose(Wrote(chunk, e)) == Wrote(chunk, OrClose(e))
  {}

  /** A waiting connection is ready once the flag of its operation is down. */
  lemma Rested(c: Conn, sent: string)
    requires Waits(c, sent)
    ensures Awaited(c) == RecvOp ==> Quiet(c.(recvPending := false))
    ensures Awaited(c) == SendOp ==> Quiet(c.(sendPending := false))
    ensures Awaited(c) == PollOp ==> Quiet(c.(pollPending := false))
  {
    assert Flag(c, RecvOp) <==> Awaited(c) == RecvOp;
    assert Flag(c, SendOp) <==> Awaited(c) == SendOp;
    assert Flag(c, PollOp) <==> Awaited(c) == PollOp;
  }

  lemma RecvDoneLeads(cfg: Config, c: Conn, sent: string, l: Life, res: int, o: Oracle)
    requires Waits(c, sent) && Fits(cfg, c, l) && Honest(o) && Awaited(c) == RecvOp
    ensures Leads(cfg, OnRecv(c, res, cfg.cap, o), SentOf(l), Next(cfg, l, res, o))
  {
    hide HttpBytes, OrClose, Close, Leads, Waits, Hear;
    Rested(c, sent);
    var d := c.(recvPending := false);
    assert Fits(cfg, d, l) && l.Asking?;
    PlainLeads(cfg, d, l);
    if res >= 0 { HearLeads(cfg, d, res, o); }
  }

  lemma SendDoneLeads(cfg: Config, c: Conn, sent: string, l: Life, res: int, o: Oracle)
    requires Waits(c, sent) && Fits(cfg, c, l) && Awaited(c) == SendOp && res <= c.len - c.off
    ensures Leads(cfg, OnSend(c, res, o), SentOf(l), Next(cfg, l, res, o))
  {
    hide OrClose, Close, Leads, Waits, SendComplete, SubmitSend, Write, Wrote;
    Rested(c, sent);
    var d := c.(sendPending := false);
    assert Fits(cfg, d, l) && l.Telling?;
    PlainLeads(cfg, d, l);
    if res >= 0 {
      var next := d.(off := d.off + res);
      var chunk := c.buf[c.off..next.off];
      assert SentOf(l) + chunk == l.text[..next.off];
      if next.off >= next.len {
        assert l.text[..|l.text|] == l.text;
        DoneLeads(cfg, next, l.text);
        WroteLeads(cfg, chunk, SendComplete(next), SentOf(l), Over(l.text, l.text, true));
        WroteOrClose(chunk, SendComplete(next));
      } else {
        SendLeads(cfg, next, Telling(l.text, next.off), o.writes, o.sqe);
        WroteLeads(cfg, chunk, SubmitSend(next, o.writes, o.sqe), SentOf(l), OrCut(o.sqe, Telling(l.text, next.off)));
        WroteOrClose(chunk, SubmitSend(next, o.writes, o.sqe));
      }
    }
  }

  lemma PollDoneLeads(cfg: Config, c: Conn, sent: string, l: Life, res: int, o: Oracle)
    requires Waits(c, sent) && Fits(cfg, c, l) && Honest(o) && Awaited(c) == PollOp
    ensures Leads(cfg, OnPoll(c, res, cfg.cap, o), SentOf(l), Next(cfg, l, res, o))
  {
    hide TlsPoll, OrClose, Close, Leads, Waits, Write, Hear, Hushed;
    Rested(c, sent);
    var d := c.(pollPending := false);
    assert Fits(cfg, d, l) && cfg.tls;
    PlainLeads(cfg, d, l);
    if res >= 0 { TlsLeads(cfg, d, l, o); }
  }

  lemma HandledLeads(cfg: Config, c: Conn, sent: string, l: Life, res: int, o: Oracle)
    requires Waits(c, sent) && Fits(cfg, c, l) && Honest(o) && c.len <= |c.buf| && c.off <= c.len
    requires Awaited(c) == SendOp ==> res <= c.len - c.off
    ensures Leads(cfg, Handled(cfg, c, Awaited(c), res, o), SentOf(l), Next(cfg, l, res, o))
  {
    hide OnRecv, OnSend, OnPoll, Leads, Waits, Awaited, Next, Fits;
    match Awaited(c) {
      case RecvOp => RecvDoneLeads(cfg, c, sent, l, res, o);
      case SendOp => SendDoneLeads(cfg, c, sent, l, res, o);
      case PollOp => PollDoneLeads(cfg, c, sent, l, res, o);
    }
  }

  lemma OpenedLeads(cfg: Config, fd: nat, sslMade: bool, o: Oracle)
    ensures Leads(cfg, Opened(fd, cfg.tls, sslMade, o), "", Born(cfg, sslMade, o))
  {
    hide OrClose, Close, Leads, SubmitRecv, SubmitPoll;
    var c := FREE.(fd := fd, state := Receiving);
    var d := c.(ssl := true, state := TlsHandshake);
    var e := d.(state := Receiving);
    if !cfg.tls {
      RecvLeads(cfg, c, Asking, o.sqe);
    } else {
      PlainLeads(cfg, d, Shaking);
      PollLeads(cfg, d, Shaking, o.sqe);
      RecvLeads(cfg, e, Asking, o.sqe);
      Unborn(cfg, c);
    }
  }

  /** No TLS object: the connection is over before the handshake. */
  lemma Unborn(cfg: Config, c: Conn)
    requires c.state != Free && c.len == 0 && c.buf == ""
    ensures Leads(cfg, Close(c, false), "", Cut(Shaking))
  {
    assert Response(c) == "" && "" + "" == "";
  }

  // ----- the whole table ----------------------------------------------------------------------

  lemma {:induction false} AliveUpdate(lives: seq<Life>, i: nat, l: Life)
    requires i < |lives|
    ensures Alive(lives[i := l]) == Alive(lives) + (if l.Over? then 0 else 1) - (if lives[i].Over? then 0 else 1)
  {
    var n := |lives| - 1;
    if i == n {
      assert lives[i := l][..n] == lives[..n];
    } else {
      assert lives[i := l][..n] == lives[..n][i := l];
      AliveUpdate(lives[..n], i, l);
    }
  }

  lemma AliveMore(lives: seq<Life>, l: Life)
    ensures Alive(lives + [l]) == Alive(lives) + if l.Over? then 0 else 1
  {
    assert (lives + [l])[..|lives|] == lives;
  }

  /** The log entry of a life that is over. */
  function Entry(id: nat, l: Life): Closed {
    Closed(id, SentOf(l), EndOf(l))
  }

  ghost predicate SlotsTell(cfg: Config, s: Srv, lives: seq<Life>)
    requires Shaped(s)
  {
    forall i | 0 <= i < |s.conns| && s.conns[i].state != Free ::
      s.ids[i] < |lives| && Fits(cfg, s.conns[i], lives[s.ids[i]]) && s.sent[i] == SentOf(lives[s.ids[i]])
  }

  ghost predicate LogTells(s: Srv, lives: seq<Life>) {
    forall k | 0 <= k < |s.log| ::
      s.log[k].id < |lives| && lives[s.log[k].id].Over? && s.log[k] == Entry(s.log[k].id, lives[s.log[k].id])
  }

  /** Slots and log tell these lives. */
  ghost predicate Tells(cfg: Config, s: Srv, lives: seq<Life>) {
    && Shaped(s) && |lives| == s.acceptsDone && Alive(lives) == Occupied(s.conns)
    && SlotsTell(cfg, s, lives) && LogTells(s, lives)
  }

  /** All slots but one. */
  ghost predicate OthersTell(cfg: Config, s: Srv, lives: seq<Life>, i: nat)
    requires Shaped(s)
  {
    forall j | 0 <= j < |s.conns| && j != i && s.conns[j].state != Free ::
      s.ids[j] < |lives| && Fits(cfg, s.conns[j], lives[s.ids[j]]) && s.sent[j] == SentOf(lives[s.ids[j]])
  }

  /** The effect of a handler on an occupied slot. */
  lemma PerformTells(cfg: Config, s: Srv, lives: seq<Life>, i: nat, e: Effect, l: Life)
    requires Shaped(s) && |lives| == s.acceptsDone && Alive(lives) == Occupied(s.conns) && LogTells(s, lives) && LogOk(s)
    requires i < |s.conns| && s.conns[i].state != Free && OthersTell(cfg, s, lives, i)
    requires s.ids[i] < |lives| && !lives[s.ids[i]].Over? && Leads(cfg, e, s.sent[i], l)
    ensures Tells(cfg, Perform(s, i, e), lives[s.ids[i] := l])
  {
    hide OpSet, Occupied, Alive, Fits;
    OccupiedUpdate(s.conns, i, e.c);
    AliveUpdate(lives, s.ids[i], l);
    FitsOccupied(cfg, e.c, l);
    PerformSlotsTell(cfg, s, lives, i, e, l);
    PerformLogTells(cfg, s, lives, i, e, l);
  }

  lemma FitsOccupied(cfg: Config, c: Conn, l: Life)
    ensures Fits(cfg, c, l) ==> c.state != Free && !l.Over?
  {}

  lemma PerformSlotsTell(cfg: Config, s: Srv, lives: seq<Life>, i: nat, e: Effect, l: Life)
    requires Shaped(s) && OthersTell(cfg, s, lives, i) && LogOk(s) && i < |s.conns| && s.conns[i].state != Free
    requires s.ids[i] < |lives| && Leads(cfg, e, s.sent[i], l)
    ensures SlotsTell(cfg, Perform(s, i, e), lives[s.ids[i] := l])
  {
    hide OpSet, Fits, EndOk;
  }

  lemma PerformLogTells(cfg: Config, s: Srv, lives: seq<Life>, i: nat, e: Effect, l: Life)
    requires Shaped(s) && LogTells(s, lives) && LogOk(s) && i < |s.conns| && s.conns[i].state != Free
    requires s.ids[i] < |lives| && !lives[s.ids[i]].Over? && Leads(cfg, e, s.sent[i], l)
    ensures LogTells(Perform(s, i, e), lives[s.ids[i] := l])
  {
    hide OpSet, Fits, EndOk;
  }

  lemma {:induction false} SomeFree(conns: seq<Conn>)
    ensures Occupied(conns) <= |conns|
    ensures Occupied(conns) == |conns| <==> forall i | 0 <= i < |conns| :: conns[i].state != Free
  {
    if conns != [] { SomeFree(conns[..|conns| - 1]); }
  }

  lemma AcceptTells(cfg: Config, s: Srv, base: int, lives: seq<Life>, fd: nat, nonblock: bool, sslMade: bool, o: Oracle)
    requires Inv(s, base) && Tells(cfg, s, lives)
    ensures Tells(cfg, AcceptOne(cfg, s, fd, nonblock, sslMade, o),
                  if nonblock && Alive(lives) < |s.conns| then lives + [Born(cfg, sslMade, o)] else lives)
  {
    hide Opened, FirstFree, Waits, Occupied, Alive, Fits, Leads, KernelOk, Born, Perform;
    var i := FirstFree(s.conns);
    SomeFree(s.conns);
    if nonblock && i < |s.conns| {
      var a, more := Allocate(s, i, fd), lives + [Shaking];
      OpenedLeads(cfg, fd, sslMade, o);
      OccupiedUpdate(s.conns, i, a.conns[i]);
      AliveMore(lives, Shaking);
      AllocateLog(s, base, i, fd);
      assert forall id | 0 <= id < |lives| :: more[id] == lives[id];
      assert OthersTell(cfg, a, more, i) && LogTells(a, more);
      PerformTells(cfg, a, more, i, Opened(fd, cfg.tls, sslMade, o), Born(cfg, sslMade, o));
      assert more[|lives| := Born(cfg, sslMade, o)] == lives + [Born(cfg, sslMade, o)];
    }
  }

  lemma AllocateLog(s: Srv, base: int, i: nat, fd: nat)
    requires Inv(s, base) && i < |s.conns| && s.conns[i].state == Free
    ensures LogOk(Allocate(s, i, fd))
  {
    hide Waits, Occupied, KernelOk, EndOk;
  }

  lemma ConnDoneTells(cfg: Config, s: Srv, base: int, lives: seq<Life>, kind: Kind, slot: nat, id: nat, res: int, o: Oracle)
    requires Inv(s, base) && Tells(cfg, s, lives) && Legal(s, ConnDone(kind, slot, id, res, o))
    ensures id < |lives| && Tells(cfg, Step(cfg, s, ConnDone(kind, slot, id, res, o)), lives[id := Next(cfg, lives[id], res, o)])
  {
    hide Waits, Handled, Perform, Leads, Fits, KernelOk, CountsOk, Occupied, Alive, Next;
    CompletionFindsOwner(s, base, kind, slot, id);
    var c := s.conns[slot];
    WaitsBounds(c, s.sent[slot]);
    FitsOccupied(cfg, c, lives[id]);
    HandledLeads(cfg, c, s.sent[slot], lives[id], res, o);
    var t := s.(kernel := s.kernel - multiset{ConnOp(kind, slot, id)});
    SameSlots(s, t, base);
    PerformTells(cfg, t, lives, slot, Handled(cfg, c, kind, res, o), Next(cfg, lives[id], res, o));
  }

  /** Only the kernel and the accept flag change. */
  lemma SameTells(cfg: Config, s: Srv, t: Srv, lives: seq<Life>)
    requires Tells(cfg, s, lives) && t == s.(acceptPending := t.acceptPending, kernel := t.kernel)
    ensures Tells(cfg, t, lives)
  {
    hide Fits, Occupied, Alive;
  }

  lemma TellsShaped(cfg: Config, s: Srv, lives: seq<Life>)
    requires Tells(cfg, s, lives)
    ensures Shaped(s)
  {}

  lemma AcceptDoneTells(cfg: Config, s: Srv, base: int, lives: seq<Life>, res: int, nonblock: bool, sslMade: bool, again: bool, o: Oracle)
    requires Inv(s, base) && Tells(cfg, s, lives) && Legal(s, AcceptDone(res, nonblock, sslMade, again, o))
    ensures Tells(cfg, Step(cfg, s, AcceptDone(res, nonblock, sslMade, again, o)),
                  Turn(cfg, |s.conns|, lives, AcceptDone(res, nonblock, sslMade, again, o)))
  {
    hide AcceptOne, Tells, Inv, Born;
    var t := s.(acceptPending := false, kernel := s.kernel - multiset{AcceptOp});
    LessAccept(s, base);
    SameTells(cfg, s, t, lives);
    TellsShaped(cfg, t, lives);
    if res >= 0 { AcceptTells(cfg, t, base, lives, res, nonblock, sslMade, o); }
    var u := if res >= 0 then AcceptOne(cfg, t, res, nonblock, sslMade, o) else t;
    SameTells(cfg, u, SubmitAccept(cfg, u, again), Turn(cfg, |s.conns|, lives, AcceptDone(res, nonblock, sslMade, again, o)));
  }

  lemma LessAccept(s: Srv, base: int)
    requires Inv(s, base) && AcceptOp in s.kernel
    ensures Inv(s.(acceptPending := false, kernel := s.kernel - multiset{AcceptOp}), base)
  {
    hide SlotsOk, CountsOk, LogOk;
    var t := s.(acceptPending := false, kernel := s.kernel - multiset{AcceptOp});
    assert s.kernel[AcceptOp] == Expected(s, AcceptOp);
    SameSlots(s, t, base);
    forall op: Op ensures t.kernel[op] == Expected(t, op) { assert s.kernel[op] == Expected(s, op); }
  }

  lemma StepLength(cfg: Config, s: Srv, ev: Event)
    requires Shaped(s) && Legal(s, ev)
    ensures |Step(cfg, s, ev).conns| == |s.conns|
  {
    hide Handled, Opened, OpSet;
  }

  /** What the cases below stand for. */
  lemma StepIs(cfg: Config, s: Srv, ev: Event, lives: seq<Life>)
    requires Shaped(s) && Legal(s, ev)
    ensures ev.Tick? ==> Step(cfg, s, ev) == s && Turn(cfg, |s.conns|, lives, ev) == lives
    ensures ev.ConnDone? && ev.id < |lives| ==>
              Turn(cfg, |s.conns|, lives, ev) == lives[ev.id := Next(cfg, lives[ev.id], ev.res, ev.o)]
  {
    hide Handled, Opened, OpSet, Next;
  }

  lemma StepTells(cfg: Config, s: Srv, base: int, lives: seq<Life>, ev: Event)
    requires Inv(s, base) && Tells(cfg, s, lives) && Legal(s, ev)
    ensures Tells(cfg, Step(cfg, s, ev), Turn(cfg, |s.conns|, lives, ev)) && |Step(cfg, s, ev).conns| == |s.conns|
  {
    hide Inv, Tells, Legal, Step, Turn, Next;
    TellsShaped(cfg, s, lives);
    StepLength(cfg, s, ev);
    StepIs(cfg, s, ev, lives);
    match ev {
      case Tick =>
      case AcceptDone(res, nonblock, sslMade, again, o) => AcceptDoneTells(cfg, s, base, lives, res, nonblock, sslMade, again, o);
      case ConnDone(kind, slot, id, res, o) => ConnDoneTells(cfg, s, base, lives, kind, slot, id, res, o);
    }
  }

  /** The event loop refines the lives: in every run slots and log say of every accepted
      connection what the completions alone say. */
  lemma {:induction false} RunTells(cfg: Config, s: Srv, base: int, lives: seq<Life>, events: seq<Event>)
    requires Inv(s, base) && Tells(cfg, s, lives) && LegalRun(cfg, s, events)
    ensures Tells(cfg, After(cfg, s, events), Story(cfg, |s.conns|, lives, events))
    decreases |events|
  {
    hide Inv, Step, Legal, Tells, Turn;
    if events != [] {
      StepKeeps(cfg, s, base, events[0]);
      StepTells(cfg, s, base, lives, events[0]);
      RunTells(cfg, Step(cfg, s, events[0]), base, Turn(cfg, |s.conns|, lives, events[0]), events[1..]);
    }
  }

  lemma StartTells(cfg: Config, slots: nat, base: nat)
    ensures Tells(cfg, Start(slots, base), [])
  {
    StartFree(slots);
  }

  lemma SubmitTells(cfg: Config, s: Srv, lives: seq<Life>, sqe: bool)
    requires Tells(cfg, s, lives)
    ensures Tells(cfg, SubmitAccept(cfg, s, sqe), lives)
  {
    hide Tells;
    SameTells(cfg, s, SubmitAccept(cfg, s, sqe), lives);
  }

  // ----- the shutdown ---------------------------------------------------------------------------

  lemma CloseTells(cfg: Config, s: Srv, base: int, lives: seq<Life>, i: nat)
    requires Closing(s, base) && Tells(cfg, s, lives) && i < |s.conns|
    ensures Tells(cfg, Perform(s, i, Close(s.conns[i], false)),
                  if s.conns[i].state == Free then lives else lives[s.ids[i] := Cut(lives[s.ids[i]])])
  {
    hide Waits, Perform, Close, Leads, Fits, CountsOk, Occupied, Alive;
    if s.conns[i].state == Free {
      ClosedAlready(s, i);
    } else {
      var l := lives[s.ids[i]];
      FitsOccupied(cfg, s.conns[i], l);
      PlainLeads(cfg, s.conns[i], l);
      PerformTells(cfg, s, lives, i, Close(s.conns[i], false), Cut(l));
    }
  }

  lemma ClosedAlready(s: Srv, i: nat)
    requires Shaped(s) && i < |s.conns| && s.conns[i].state == Free
    ensures Perform(s, i, Close(s.conns[i], false)) == s
  {
    assert s.sent[i] + "" == s.sent[i];
  }

  /** All lives cut short that are not over. */
  function Ended(lives: seq<Life>): seq<Life> {
    seq(|lives|, id requires 0 <= id < |lives| => Cut(lives[id]))
  }

  lemma SlotKnown(cfg: Config, s: Srv, lives: seq<Life>, i: nat)
    requires Tells(cfg, s, lives) && i < |s.conns| && s.conns[i].state != Free
    ensures s.ids[i] < |lives|
  {
    hide Fits, Alive, Occupied;
  }

  lemma EndedCut(lives: seq<Life>, id: nat)
    requires id < |lives|
    ensures Ended(lives[id := Cut(lives[id])]) == Ended(lives)
  {}

  lemma EndedOver(lives: seq<Life>)
    requires forall id | 0 <= id < |lives| :: lives[id].Over?
    ensures Ended(lives) == lives
  {}

  /** What the log says when every slot is free. */
  ghost predicate LogIs(log: seq<Closed>, told: seq<Life>) {
    |log| == |told| && forall k | 0 <= k < |log| :: log[k].id < |told| && log[k] == Entry(log[k].id, told[log[k].id])
  }

  lemma AllTold(cfg: Config, s: Srv, base: int, lives: seq<Life>)
    requires Closing(s, base) && Tells(cfg, s, lives) && forall i | 0 <= i < |s.conns| :: s.conns[i].state == Free
    ensures LogIs(s.log, Ended(lives))
  {
    hide Entry, Cut;
    NoneOccupied(s.conns);
    AllClosed(s, base);
    AllOver(lives);
    EndedOver(lives);
  }

  lemma {:induction false} AllOver(lives: seq<Life>)
    requires Alive(lives) == 0
    ensures forall id | 0 <= id < |lives| :: lives[id].Over?
  {
    if lives != [] { AllOver(lives[..|lives| - 1]); }
  }

  // ----- where a response comes from --------------------------------------------------------------

  /** A completion that ends the asking of connection `id` with this response: bytes came and
      the feed replied, or the peer stopped and the 400 text fits the buffer. */
  predicate Answers(cfg: Config, ev: Event, id: nat, text: string) {
    && ev.ConnDone? && ev.id == id && ev.res >= 0
    && if (if cfg.tls then ev.o.read > 0 else ev.res > 0) then ev.o.feed == FeedReply(text)
       else text == BAD_REQUEST && |BAD_REQUEST| < cfg.cap && (if cfg.tls then ev.o.read == -2 else ev.res == 0)
  }

  lemma {:induction false} WriteText(text: string, n: nat, writes: seq<int>, sqe: bool)
    ensures TextOf(Write(text, n, writes, sqe)) == text && !Write(text, n, writes, sqe).Asking?
    decreases |writes|
  {
    if writes != [] && writes[0] > 0 && n + writes[0] < |text| { WriteText(text, n + writes[0], writes[1..], sqe); }
  }

  /** Only an answer gives an asking connection a text. */
  lemma AskedIff(cfg: Config, res: int, o: Oracle, kind: Kind, slot: nat, id: nat, text: string)
    requires text != ""
    ensures TextOf(Next(cfg, Asking, res, o)) == text <==> Answers(cfg, ConnDone(kind, slot, id, res, o), id, text)
  {
    hide Write;
    WriteText(BAD_REQUEST, 0, o.writes, o.sqe);
    if o.feed.FeedReply? { WriteText(o.feed.text, 0, o.writes, o.sqe); }
    BadIsText();
  }

  lemma BadIsText()
    ensures BAD_REQUEST != ""
  {}

  /** A text, once there, stays. */
  lemma TextStays(cfg: Config, l: Life, res: int, o: Oracle)
    requires l.Telling? || l.Over?
    ensures var m := Next(cfg, l, res, o); (m.Telling? || m.Over?) && TextOf(m) == TextOf(l)
  {
    hide Write;
    if l.Telling? {
      WriteText(l.text, l.n, o.writes, o.sqe);
      WriteAnswers(l.text, l.n, o.writes, o.sqe);
    }
  }

  lemma {:induction false} WriteAnswers(text: string, n: nat, writes: seq<int>, sqe: bool)
    ensures Write(text, n, writes, sqe).Telling? || Write(text, n, writes, sqe).Over?
    decreases |writes|
  {
    if writes != [] && writes[0] > 0 && n + writes[0] < |text| { WriteAnswers(text, n + writes[0], writes[1..], sqe); }
  }

  lemma {:induction false} StoryMore(cfg: Config, slots: nat, lives: seq<Life>, events: seq<Event>, ev: Event)
    ensures Story(cfg, slots, lives, events + [ev]) == Turn(cfg, slots, Story(cfg, slots, lives, events), ev)
    decreases |events|
  {
    hide Turn;
    if events == [] {
      assert [] + [ev] == [ev] && [ev][1..] == [];
    } else {
      assert (events + [ev])[1..] == events[1..] + [ev];
      StoryMore(cfg, slots, Turn(cfg, slots, lives, events[0]), events[1..], ev);
    }
  }

  /** The lives before the k-th completion. */
  function Before(cfg: Config, slots: nat, events: seq<Event>, k: nat): seq<Life>
    requires k <= |events|
  {
    Story(cfg, slots, [], events[..k])
  }

  lemma BeforeStep(cfg: Config, slots: nat, events: seq<Event>, k: nat)
    requires k < |events|
    ensures Before(cfg, slots, events, k + 1) == Turn(cfg, slots, Before(cfg, slots, events, k), events[k])
  {
    assert events[..k + 1] == events[..k] + [events[k]];
    StoryMore(cfg, slots, [], events[..k], events[k]);
  }

  /** Completion k finds connection `id` asking and answers it. */
  ghost predicate AnsweredAt(cfg: Config, slots: nat, events: seq<Event>, id: nat, text: string, k: nat) {
    && k < |events| && id < |Before(cfg, slots, events, k)| && Before(cfg, slots, events, k)[id] == Asking
    && Answers(cfg, events[k], id, text)
  }

  /** What an asking connection is answered is its response for good. */
  lemma {:induction false} AnswerStays(cfg: Config, slots: nat, events: seq<Event>, id: nat, text: string, k: nat, n: nat)
    requires AnsweredAt(cfg, slots, events, id, text, k) && text != "" && k < n <= |events|
    ensures var lives := Before(cfg, slots, events, n);
            id < |lives| && TextOf(lives[id]) == text && (lives[id].Telling? || lives[id].Over?)
  {
    hide Next, Answers, Born;
    BeforeStep(cfg, slots, events, n - 1);
    var ev := events[n - 1];
    if n == k + 1 {
      IsConnDone(cfg, ev, id, text);
      AskedIff(cfg, ev.res, ev.o, ev.kind, ev.slot, id, text);
    } else {
      AnswerStays(cfg, slots, events, id, text, k, n - 1);
      if ev.ConnDone? { TextStays(cfg, Before(cfg, slots, events, n - 1)[id], ev.res, ev.o); }
    }
  }

  lemma IsConnDone(cfg: Config, ev: Event, id: nat, text: string)
    requires Answers(cfg, ev, id, text)
    ensures ev.ConnDone? && ev.id == id
  {}

  /** The response of a connection in any run is what it was answered when it was asking, and
      empty if it never was. */
  lemma {:induction false} ResponseIff(cfg: Config, slots: nat, events: seq<Event>, id: nat, text: string)
    requires id < |Story(cfg, slots, [], events)| && text != ""
    ensures TextOf(Story(cfg, slots, [], events)[id]) == text
       <==> exists k: nat :: AnsweredAt(cfg, slots, events, id, text, k)
  {
    var n := |events|;
    assert events[..n] == events;
    NoneBefore(cfg, slots, events);
    if TextOf(Story(cfg, slots, [], events)[id]) == text {
      var k := FindAnswer(cfg, slots, events, id, text, n);
    }
    if k: nat :| AnsweredAt(cfg, slots, events, id, text, k) {
      AnswerStays(cfg, slots, events, id, text, k, n);
    }
  }

  lemma {:induction false} FindAnswer(cfg: Config, slots: nat, events: seq<Event>, id: nat, text: string, n: nat) returns (k: nat)
    requires 0 < n <= |events| && id < |Before(cfg, slots, events, n)| && text != ""
    requires TextOf(Before(cfg, slots, events, n)[id]) == text
    ensures AnsweredAt(cfg, slots, events, id, text, k)
  {
    hide Next, Answers, Born;
    BeforeStep(cfg, slots, events, n - 1);
    var before, ev := Before(cfg, slots, events, n - 1), events[n - 1];
    if id < |before| && TextOf(before[id]) == text {
      NoneBefore(cfg, slots, events);
      k := FindAnswer(cfg, slots, events, id, text, n - 1);
    } else {
      k := n - 1;
      Unanswered(cfg, before, slots, ev, id, text);
    }
  }

  lemma NoneBefore(cfg: Config, slots: nat, events: seq<Event>)
    ensures Before(cfg, slots, events, 0) == []
  {}

  /** A turn that brings a text. */
  lemma Unanswered(cfg: Config, lives: seq<Life>, slots: nat, ev: Event, id: nat, text: string)
    requires id < |Turn(cfg, slots, lives, ev)| && text != "" && TextOf(Turn(cfg, slots, lives, ev)[id]) == text
    requires id >= |lives| || TextOf(lives[id]) != text
    ensures id < |lives| && lives[id] == Asking && Answers(cfg, ev, id, text)
  {
    hide Next, Answers;
    assert ev.ConnDone? && id < |lives| && ev.id == id;
    var l := lives[id];
    if l.Telling? || l.Over? {
      TextStays(cfg, l, ev.res, ev.o);
    } else if l.Shaking? {
      ShakingIsMute(cfg, ev.res, ev.o);
    } else {
      AskedIff(cfg, ev.res, ev.o, ev.kind, ev.slot, id, text);
    }
  }

  lemma ShakingIsMute(cfg: Config, res: int, o: Oracle)
    ensures TextOf(Next(cfg, Shaking, res, o)) == ""
  {}
}
