/** src/host/iouring_loop.c as it runs: the slot table is updated in place, and each function
    does to it what IoConn and IoLoop say. */
module IoServer {
  import opened IoConn
  import opened IoLoop
  import IoStory

  /** `first`, then `second`, on the connection `first` left open. */
  function Then(first: Effect, second: Effect): Effect {
    second.(ops := first.ops + second.ops, wrote := first.wrote + second.wrote)
  }

  lemma {:induction false} OpSetJoins(a: seq<Kind>, b: seq<Kind>, slot: nat, id: nat)
    ensures OpSet(a + b, slot, id) == OpSet(a, slot, id) + OpSet(b, slot, id)
  {
    if a == [] {
      assert a + b == b;
    } else {
      assert (a + b)[1..] == a[1..] + b;
      OpSetJoins(a[1..], b, slot, id);
    }
  }

  lemma PerformTwice(s: Srv, i: nat, first: Effect, second: Effect)
    requires Shaped(s) && i < |s.conns| && first.end.Open? && first.c.fd == s.conns[i].fd
    ensures Perform(Perform(s, i, first), i, second) == Perform(s, i, Then(first, second))
  {
    OpSetJoins(first.ops, second.ops, i, s.ids[i]);
    assert s.sent[i] + first.wrote + second.wrote == s.sent[i] + (first.wrote + second.wrote);
    assert s.conns[i := first.c][i := second.c] == s.conns[i := second.c];
  }

  lemma PlainFirst(c: Conn, rc: int, e: Effect)
    ensures Then(Plain(c, rc), e) == e
  {
    assert [] + e.ops == e.ops && "" + e.wrote == e.wrote;
  }

  lemma PerformPlain(s: Srv, i: nat, c: Conn, rc: int)
    requires Shaped(s) && i < |s.conns|
    ensures Perform(s, i, Plain(c, rc)) == s.(conns := s.conns[i := c])
  {
    assert s.sent[i] + "" == s.sent[i];
  }

  class Loop {
    const cfg: Config
    const conns: array<Conn>
    var acceptPending: bool
    var acceptsDone: nat
    var active: int
    ghost var ids: seq<nat>
    ghost var sent: seq<string>
    ghost var kernel: multiset<Op>
    ghost var log: seq<Closed>

    ghost function State(): Srv
      reads this, conns
    {
      Srv(conns[..], ids, sent, acceptPending, acceptsDone, active, kernel, log)
    }

    ghost predicate Valid()
      reads this, conns
    {
      Shaped(State())
    }

    constructor (cfg: Config, slots: nat, base: int)
      ensures Valid() && State() == Start(slots, base) && this.cfg == cfg && fresh(conns)
    {
      this.cfg := cfg;
      conns := new Conn[slots](_ => FREE);
      acceptPending, acceptsDone, active := false, 0, base;
      ids, sent, kernel, log := seq(slots, _ => 0), seq(slots, _ => ""), multiset{}, [];
    }

    /** An update of a slot's fields is a plain effect. */
    method Set(i: nat, c: Conn)
      requires Valid() && i < conns.Length
      modifies conns
      ensures Valid() && State() == old(State()).(conns := old(conns[..])[i := c])
      ensures State() == Perform(old(State()), i, Plain(c, 0))
    {
      PerformPlain(State(), i, c, 0);
      conns[i] := c;
    }

    /** close_conn */
    method CloseConn(i: nat, ghost finished: bool)
      requires Valid() && i < conns.Length
      modifies this, conns
      ensures Valid() && State() == Perform(old(State()), i, Close(old(conns[i]), finished))
    {
      var c := conns[i];
      if c.state == Free {
        PerformPlain(State(), i, c, 0);
        return;
      }
      log := log + [Closed(ids[i], sent[i] + "", if finished then Finished(Response(c)) else Aborted(Response(c)))];
      sent := sent[i := sent[i] + ""];
      if c.fd >= 0 && active > 0 { active := active - 1; }
      conns[i] := FREE;
    }

    /** io_uring_prep_* and set_data64 */
    method Submit(i: nat, kind: Kind, c: Conn)
      requires Valid() && i < conns.Length
      modifies this`kernel, conns
      ensures Valid() && State() == Perform(old(State()), i, Effect(c, [kind], "", Open, 0))
    {
      assert [kind][1..] == [];
      assert OpSet([kind], i, ids[i]) == multiset{ConnOp(kind, i, ids[i])};
      assert sent[i] + "" == sent[i];
      kernel := kernel + multiset{ConnOp(kind, i, ids[i])};
      conns[i] := c;
    }

    /** submit_poll */
    method SubmitPollAt(i: nat, sqe: bool) returns (rc: int)
      requires Valid() && i < conns.Length
      modifies this`kernel, conns
      ensures Valid() && State() == Perform(old(State()), i, SubmitPoll(old(conns[i]), sqe))
      ensures rc == SubmitPoll(old(conns[i]), sqe).rc
    {
      var c := conns[i];
      PerformPlain(State(), i, c, 0);
      PerformPlain(State(), i, c, -1);
      if c.pollPending { return 0; }
      if !sqe { return -1; }
      Submit(i, PollOp, c.(pollPending := true));
      rc := 0;
    }

    /** submit_recv */
    method SubmitRecvAt(i: nat, sqe: bool) returns (rc: int)
      requires Valid() && i < conns.Length
      modifies this`kernel, conns
      ensures Valid() && State() == Perform(old(State()), i, SubmitRecv(old(conns[i]), sqe))
      ensures rc == SubmitRecv(old(conns[i]), sqe).rc
    {
      var c := conns[i];
      PerformPlain(State(), i, c, 0);
      PerformPlain(State(), i, c, -1);
      if c.recvPending || c.pollPending || (c.state != Receiving && c.state != TlsHandshake) { return 0; }
      if c.ssl {
        rc := SubmitPollAt(i, sqe);
        return;
      }
      if !sqe { return -1; }
      Submit(i, RecvOp, c.(recvPending := true));
      rc := 0;
    }

    /** handle_send_complete */
    method SendCompleteAt(i: nat) returns (rc: int)
      requires Valid() && i < conns.Length
      modifies this, conns
      ensures Valid() && State() == Perform(old(State()), i, SendComplete(old(conns[i]))) && rc == 0
    {
      CloseConn(i, true);
      rc := 0;
    }

    /** What the library took is on its way to the peer. */
    method Advance(i: nat, n: nat)
      requires Valid() && i < conns.Length && conns[i].off + n <= |conns[i].buf|
      modifies this`sent, conns
      ensures Valid()
      ensures var c := old(conns[i]);
              State() == Perform(old(State()), i, Effect(c.(off := c.off + n), [], c.buf[c.off..c.off + n], Open, 0))
    {
      var c := conns[i];
      sent := sent[i := sent[i] + c.buf[c.off..c.off + n]];
      conns[i] := c.(off := c.off + n);
    }

    /** tls_drive_write */
    method DriveWriteAt(i: nat, writes: seq<int>, sqe: bool) returns (rc: int)
      requires Valid() && i < conns.Length && conns[i].len <= |conns[i].buf|
      modifies this, conns
      ensures Valid() && State() == Perform(old(State()), i, DriveWrite(old(conns[i]), writes, sqe))
      ensures rc == DriveWrite(old(conns[i]), writes, sqe).rc
      decreases |writes|, 0
    {
      hide Perform, SendComplete, SubmitPoll;
      var c := conns[i];
      PerformPlain(State(), i, c, 0);
      PerformPlain(State(), i, c, -1);
      if !c.ssl || c.off >= c.len { return 0; }
      if writes == [] || writes[0] < 0 { return -1; }
      if writes[0] == 0 {
        rc := SubmitPollAt(i, sqe);
        return;
      }
      rc := WroteAt(i, Taken(writes[0], c.len - c.off), writes[1..], sqe);
    }

    /** The bookkeeping of a write that took `n` bytes, and what comes after it. */
    method WroteAt(i: nat, n: nat, rest: seq<int>, sqe: bool) returns (rc: int)
      requires Valid() && i < conns.Length && conns[i].off + n <= conns[i].len <= |conns[i].buf|
      modifies this, conns
      ensures Valid() && State() == Perform(old(State()), i, AfterWrite(old(conns[i]), n, rest, sqe))
      ensures rc == AfterWrite(old(conns[i]), n, rest, sqe).rc
      decreases |rest|, 1
    {
      hide Perform, SendComplete, DriveWrite;
      ghost var start := State();
      var c := conns[i];
      Advance(i, n);
      ghost var first := Effect(c.(off := c.off + n), [], c.buf[c.off..c.off + n], Open, 0);
      PerformSlot(start, i, first);
      var next := conns[i];
      if next.off >= next.len {
        WroteIsThen(first, SendComplete(next));
        PerformTwice(start, i, first, SendComplete(next));
        rc := SendCompleteAt(i);
        SendCompleteRc(next);
        return;
      }
      WroteIsThen(first, DriveWrite(next, rest, sqe));
      PerformTwice(start, i, first, DriveWrite(next, rest, sqe));
      rc := DriveWriteAt(i, rest, sqe);
    }

    /** submit_send */
    method SubmitSendAt(i: nat, writes: seq<int>, sqe: bool) returns (rc: int)
      requires Valid() && i < conns.Length && conns[i].len <= |conns[i].buf|
      modifies this, conns
      ensures Valid() && State() == Perform(old(State()), i, SubmitSend(old(conns[i]), writes, sqe))
      ensures rc == SubmitSend(old(conns[i]), writes, sqe).rc
    {
      hide Perform, DriveWrite;
      var c := conns[i];
      PerformPlain(State(), i, c, 0);
      PerformPlain(State(), i, c, -1);
      if c.sendPending || c.pollPending || c.off >= c.len { return 0; }
      if c.ssl {
        rc := DriveWriteAt(i, writes, sqe);
        return;
      }
      if !sqe { return -1; }
      Submit(i, SendOp, c.(sendPending := true));
      rc := 0;
    }

    /** begin_send_buf, the response being in the buffer. */
    method BeginSendAt(i: nat, text: string, o: Oracle) returns (rc: int)
      requires Valid() && i < conns.Length
      modifies this, conns
      ensures Valid() && State() == Perform(old(State()), i, BeginSend(old(conns[i]), text, o))
      ensures rc == BeginSend(old(conns[i]), text, o).rc
    {
      hide Perform, SubmitSend;
      ghost var start := State();
      var c := conns[i].(buf := text, len := |text|, off := 0, state := Sending);
      SetThen(start, i, c, SubmitSend(c, o.writes, o.sqe));
      Set(i, c);
      rc := SubmitSendAt(i, o.writes, o.sqe);
    }

    /** begin_bad_request_plain */
    method BeginBadRequestAt(i: nat, o: Oracle) returns (rc: int)
      requires Valid() && i < conns.Length
      modifies this, conns
      ensures Valid() && State() == Perform(old(State()), i, BeginBadRequest(old(conns[i]), cfg.cap, o))
      ensures rc == BeginBadRequest(old(conns[i]), cfg.cap, o).rc
    {
      hide Perform, BeginSend;
      PerformPlain(State(), i, conns[i], -1);
      if |BAD_REQUEST| >= cfg.cap { return -1; }
      rc := BeginSendAt(i, BAD_REQUEST, o);
    }

    /** handle_http_bytes */
    method HttpBytesAt(i: nat, n: nat, o: Oracle) returns (rc: int)
      requires Valid() && i < conns.Length
      modifies this, conns
      ensures Valid() && State() == Perform(old(State()), i, HttpBytes(old(conns[i]), n, cfg.cap, o))
      ensures rc == HttpBytes(old(conns[i]), n, cfg.cap, o).rc
    {
      hide Perform, BeginSend, BeginBadRequest, SubmitRecv;
      PerformPlain(State(), i, conns[i], -1);
      if n == 0 {
        rc := BeginBadRequestAt(i, o);
        return;
      }
      match o.feed {
        case FeedFailed => rc := -1;
        case FeedMore => rc := SubmitRecvAt(i, o.sqe);
        case FeedReply(text) => rc := BeginSendAt(i, text, o);
      }
    }

    /** Going on with the handshake. */
    method HandshakeAt(i: nat, o: Oracle) returns (rc: int)
      requires Valid() && i < conns.Length && conns[i].state == TlsHandshake && conns[i].len <= |conns[i].buf|
      modifies this, conns
      ensures Valid() && State() == Perform(old(State()), i, TlsPoll(old(conns[i]), cfg.cap, o))
      ensures rc == TlsPoll(old(conns[i]), cfg.cap, o).rc
    {
      hide Perform, SubmitRecv, SubmitPoll;
      ghost var start := State();
      var c := conns[i];
      PerformPlain(start, i, c, -1);
      if o.handshake == 1 {
        var d := c.(state := Receiving);
        SetThen(start, i, d, SubmitRecv(d, o.sqe));
        Set(i, d);
        rc := SubmitRecvAt(i, o.sqe);
      } else if o.handshake == 0 {
        rc := SubmitPollAt(i, o.sqe);
      } else {
        rc := -1;
      }
    }

    /** handle_tls_poll */
    method TlsPollAt(i: nat, o: Oracle) returns (rc: int)
      requires Valid() && i < conns.Length && conns[i].len <= |conns[i].buf|
      modifies this, conns
      ensures Valid() && State() == Perform(old(State()), i, TlsPoll(old(conns[i]), cfg.cap, o))
      ensures rc == TlsPoll(old(conns[i]), cfg.cap, o).rc
    {
      hide Perform, HttpBytes, BeginBadRequest, SubmitRecv, SubmitPoll, DriveWrite;
      var c := conns[i];
      PerformPlain(State(), i, c, 0);
      PerformPlain(State(), i, c, -1);
      match c.state {
        case TlsHandshake => rc := HandshakeAt(i, o);
        case Receiving =>
          if o.read > 0 {
            rc := HttpBytesAt(i, o.read, o);
          } else if o.read == 0 {
            rc := SubmitPollAt(i, o.sqe);
          } else if o.read == -2 {
            rc := BeginBadRequestAt(i, o);
          } else {
            rc := -1;
          }
        case Sending => rc := DriveWriteAt(i, o.writes, o.sqe);
        case Free => rc := 0;
      }
    }

    /** if (rc != 0) close_conn(...), after a handler with effect `e`. */
    method CloseIfFailed(i: nat, rc: int, ghost start: Srv, ghost e: Effect)
      requires Valid() && Shaped(start) && i < conns.Length == |start.conns|
      requires State() == Perform(start, i, e) && rc == e.rc && (rc != 0 ==> KeepsSlot(e, start.conns[i]))
      modifies this, conns
      ensures Valid() && State() == Perform(start, i, OrClose(e))
    {
      hide Perform;
      PerformSlot(start, i, e);
      if rc != 0 {
        PerformTwice(start, i, e, Close(e.c, false));
        CloseThen(e);
        CloseConn(i, false);
      }
    }

    /** OP_RECV */
    method OnRecvAt(i: nat, res: int, o: Oracle)
      requires Valid() && i < conns.Length
      modifies this, conns
      ensures Valid() && State() == Perform(old(State()), i, OnRecv(old(conns[i]), res, cfg.cap, o))
    {
      hide Perform, HttpBytes, OrClose, Close;
      ghost var start := State();
      var c := conns[i];
      PerformPlain(start, i, c, 0);
      if c.state != Receiving { return; }
      var d := c.(recvPending := false);
      Set(i, d);
      ghost var cleared := State();
      PerformSlot(start, i, Plain(d, 0));
      if res < 0 {
        SetThen(start, i, d, Close(d, false));
        CloseConn(i, false);
      } else {
        SetThen(start, i, d, OrClose(HttpBytes(d, res, cfg.cap, o)));
        var rc := HttpBytesAt(i, res, o);
        HttpKeepsSlot(d, res, cfg.cap, o);
        CloseIfFailed(i, rc, cleared, HttpBytes(d, res, cfg.cap, o));
      }
    }

    /** OP_SEND */
    method OnSendAt(i: nat, res: int, o: Oracle)
      requires Valid() && i < conns.Length && conns[i].len <= |conns[i].buf| && conns[i].off + res <= |conns[i].buf|
      modifies this, conns
      ensures Valid() && State() == Perform(old(State()), i, OnSend(old(conns[i]), res, o))
    {
      hide Perform, SubmitSend, OrClose, Close, SendComplete;
      ghost var start := State();
      var c := conns[i];
      PerformPlain(start, i, c, 0);
      if c.state == Free { return; }
      var d := c.(sendPending := false);
      Set(i, d);
      PerformSlot(start, i, Plain(d, 0));
      if res < 0 {
        SetThen(start, i, d, Close(d, false));
        CloseConn(i, false);
        return;
      }
      SetThen(start, i, d, OnSendRest(d, res, o));
      SentPart(i, res, o);
    }

    /** The bookkeeping of a send that moved `res` bytes. */
    method SentPart(i: nat, res: nat, o: Oracle)
      requires Valid() && i < conns.Length && conns[i].len <= |conns[i].buf| && conns[i].off + res <= |conns[i].buf|
      modifies this, conns
      ensures Valid() && State() == Perform(old(State()), i, OnSendRest(old(conns[i]), res, o))
    {
      hide Perform, SubmitSend, OrClose, Close, SendComplete;
      ghost var start := State();
      var d := conns[i];
      Advance(i, res);
      ghost var moved := State();
      ghost var first := Effect(d.(off := d.off + res), [], d.buf[d.off..d.off + res], Open, 0);
      PerformSlot(start, i, first);
      var next := conns[i];
      if next.off >= next.len {
        WroteIsThen(first, OrClose(SendComplete(next)));
        PerformTwice(start, i, first, OrClose(SendComplete(next)));
        var rc := SendCompleteAt(i);
        SendCompleteRc(next);
        CloseIfFailed(i, rc, moved, SendComplete(next));
      } else {
        WroteIsThen(first, OrClose(SubmitSend(next, o.writes, o.sqe)));
        PerformTwice(start, i, first, OrClose(SubmitSend(next, o.writes, o.sqe)));
        var rc := SubmitSendAt(i, o.writes, o.sqe);
        SendKeepsSlot(next, o.writes, o.sqe);
        CloseIfFailed(i, rc, moved, SubmitSend(next, o.writes, o.sqe));
      }
    }

    /** OP_POLL */
    method OnPollAt(i: nat, res: int, o: Oracle)
      requires Valid() && i < conns.Length && conns[i].len <= |conns[i].buf|
      modifies this, conns
      ensures Valid() && State() == Perform(old(State()), i, OnPoll(old(conns[i]), res, cfg.cap, o))
    {
      hide Perform, TlsPoll, OrClose, Close;
      ghost var start := State();
      var c := conns[i];
      PerformPlain(start, i, c, 0);
      if c.state == Free { return; }
      var d := c.(pollPending := false);
      Set(i, d);
      ghost var cleared := State();
      PerformSlot(start, i, Plain(d, 0));
      if res < 0 {
        SetThen(start, i, d, Close(d, false));
        CloseConn(i, false);
      } else if d.ssl {
        SetThen(start, i, d, OrClose(TlsPoll(d, cfg.cap, o)));
        var rc := TlsPollAt(i, o);
        TlsKeepsSlot(d, cfg.cap, o);
        CloseIfFailed(i, rc, cleared, TlsPoll(d, cfg.cap, o));
      }
    }

    /** The search of alloc_conn. */
    method FindFree() returns (i: nat)
      ensures i == FirstFree(conns[..])
    {
      i := 0;
      while i < conns.Length && conns[i].state != Free
        invariant i <= conns.Length && FirstFree(conns[..]) == i + FirstFree(conns[i..])
        decreases conns.Length - i
      {
        assert conns[i..][1..] == conns[i + 1..];
        i := i + 1;
      }
    }

    /** accept_one */
    method AcceptAt(fd: nat, nonblock: bool, sslMade: bool, o: Oracle)
      requires Valid()
      modifies this, conns
      ensures Valid() && State() == AcceptOne(cfg, old(State()), fd, nonblock, sslMade, o)
    {
      hide Perform, Opened, FirstFree;
      if !nonblock { return; }
      var i := FindFree();
      if i == conns.Length { return; }
      ghost var start := State();
      conns[i] := FREE.(fd := fd, state := Receiving);
      ids := ids[i := acceptsDone];
      sent := sent[i := ""];
      acceptsDone := acceptsDone + 1;
      active := active + 1;
      assert State() == Allocate(start, i, fd);
      OpenAt(i, fd, sslMade, o);
    }

    /** The rest of accept_one, on the allocated slot. */
    method OpenAt(i: nat, fd: nat, sslMade: bool, o: Oracle)
      requires Valid() && i < conns.Length && conns[i] == FREE.(fd := fd, state := Receiving)
      modifies this, conns
      ensures Valid() && State() == Perform(old(State()), i, Opened(fd, cfg.tls, sslMade, o))
    {
      hide Perform, SubmitRecv, SubmitPoll, OrClose, Close;
      ghost var start := State();
      var c := conns[i];
      var rc := 0;
      if !cfg.tls {
        rc := SubmitRecvAt(i, o.sqe);
        RecvKeepsSlot(c, o.sqe);
        CloseIfFailed(i, rc, start, SubmitRecv(c, o.sqe));
        return;
      }
      if !sslMade {
        CloseConn(i, false);
        return;
      }
      var d := c.(ssl := true, state := if o.handshake == 1 then Receiving else TlsHandshake);
      Set(i, d);
      ghost var made := State();
      PerformSlot(start, i, Plain(d, 0));
      if o.handshake == 1 {
        SetThen(start, i, d, OrClose(SubmitRecv(d, o.sqe)));
        rc := SubmitRecvAt(i, o.sqe);
        RecvKeepsSlot(d, o.sqe);
        CloseIfFailed(i, rc, made, SubmitRecv(d, o.sqe));
      } else if o.handshake == 0 {
        SetThen(start, i, d, OrClose(SubmitPoll(d, o.sqe)));
        rc := SubmitPollAt(i, o.sqe);
        PollKeepsSlot(d, o.sqe);
        CloseIfFailed(i, rc, made, SubmitPoll(d, o.sqe));
      } else {
        SetThen(start, i, d, Close(d, false));
        CloseConn(i, false);
      }
    }

    /** submit_accept */
    method SubmitAcceptAt(sqe: bool)
      requires Valid()
      modifies this`acceptPending, this`kernel
      ensures Valid() && State() == SubmitAccept(cfg, old(State()), sqe)
    {
      if acceptPending || (cfg.maxAccepts > 0 && acceptsDone >= cfg.maxAccepts) || !sqe { return; }
      kernel := kernel + multiset{AcceptOp};
      acceptPending := true;
    }

    /** One turn of the loop. */
    method Handle(ev: Event)
      requires Valid() && Legal(State(), ev)
      modifies this, conns
      ensures Valid() && State() == Step(cfg, old(State()), ev)
    {
      hide Perform, AcceptOne, SubmitAccept, OnRecv, OnSend, OnPoll;
      match ev {
        case Tick =>
        case AcceptDone(res, nonblock, sslMade, again, o) =>
          kernel := kernel - multiset{AcceptOp};
          acceptPending := false;
          if res >= 0 { AcceptAt(res, nonblock, sslMade, o); }
          SubmitAcceptAt(again);
        case ConnDone(kind, slot, id, res, o) =>
          kernel := kernel - multiset{ConnOp(kind, slot, id)};
          match kind {
            case RecvOp => OnRecvAt(slot, res, o);
            case SendOp => OnSendAt(slot, res, o);
            case PollOp => OnPollAt(slot, res, o);
          }
      }
    }

    /** edge_iouring_run from the first accept to the last close: the invariant holds at
        every turn, and in the end every slot is free, the gauge is back where it was and
        every accepted connection was closed once, its peer having received a prefix of its
        response. Which response, how much of it and whether it was told whole is what the
        completions alone say. */
    method Run(events: seq<Event>, base: nat, sqe: bool)
      requires Valid() && State() == Start(conns.Length, base)
      requires LegalRun(cfg, SubmitAccept(cfg, State(), sqe), events)
      modifies this, conns
      ensures forall i | 0 <= i < conns.Length :: conns[i] == FREE
      ensures active == base && acceptsDone == |log|
      ensures forall k | 0 <= k < |log| :: !log[k].end.Open? && EndOk(log[k].end, log[k].sent)
      ensures forall j, k | 0 <= j < k < |log| :: log[j].id != log[k].id
      ensures IoStory.LogIs(log, IoStory.Ended(IoStory.Story(cfg, conns.Length, [], events)))
    {
      hide Inv, LegalRun, Step, SubmitAccept, Legal, Closing, EndOk, IoStory.Tells, IoStory.Turn, IoStory.Ended, IoStory.LogIs;
      StartOk(conns.Length, base);
      IoStory.StartTells(cfg, conns.Length, base);
      SubmitKeeps(cfg, State(), base, sqe);
      IoStory.SubmitTells(cfg, State(), [], sqe);
      ghost var lives: seq<IoStory.Life> := [];
      SubmitAcceptAt(sqe);
      var n := 0;
      assert events[0..] == events;
      while n < |events|
        invariant n <= |events| && Valid() && Inv(State(), base) && LegalRun(cfg, State(), events[n..])
        invariant IoStory.Tells(cfg, State(), lives)
        invariant IoStory.Story(cfg, conns.Length, lives, events[n..]) == IoStory.Story(cfg, conns.Length, [], events)
      {
        LegalNext(cfg, State(), events[n..]);
        assert events[n..][1..] == events[n + 1..];
        StepKeeps(cfg, State(), base, events[n]);
        IoStory.StepTells(cfg, State(), base, lives, events[n]);
        lives := IoStory.Turn(cfg, conns.Length, lives, events[n]);
        Handle(events[n]);
        n := n + 1;
      }
      InvCloses(State(), base);
      CloseAll(base, lives);
    }

    /** The shutdown loop. */
    method CloseAll(ghost base: int, ghost lives: seq<IoStory.Life>)
      requires Valid() && Closing(State(), base) && IoStory.Tells(cfg, State(), lives)
      modifies this, conns
      ensures forall i | 0 <= i < conns.Length :: conns[i] == FREE
      ensures active == base && acceptsDone == |log|
      ensures forall k | 0 <= k < |log| :: !log[k].end.Open? && EndOk(log[k].end, log[k].sent)
      ensures forall j, k | 0 <= j < k < |log| :: log[j].id != log[k].id
      ensures IoStory.LogIs(log, IoStory.Ended(lives))
    {
      hide Closing, Perform, EndOk, IoStory.Tells, IoStory.Ended, IoStory.Cut, IoStory.LogIs;
      ghost var left := lives;
      for i := 0 to conns.Length
        invariant Valid() && Closing(State(), base)
        invariant forall j | 0 <= j < i :: conns[j] == FREE
        invariant IoStory.Tells(cfg, State(), left) && IoStory.Ended(left) == IoStory.Ended(lives)
      {
        CloseKeeps(State(), base, i);
        IoStory.CloseTells(cfg, State(), base, left, i);
        if conns[i].state != Free {
          IoStory.SlotKnown(cfg, State(), left, i);
          IoStory.EndedCut(left, ids[i]);
          left := left[ids[i] := IoStory.Cut(left[ids[i]])];
        }
        CloseConn(i, false);
      }
      IoStory.AllTold(cfg, State(), base, left);
      AllClosed(State(), base);
      ClosingLog(State(), base);
    }
  }

  lemma LegalNext(cfg: Config, s: Srv, events: seq<Event>)
    requires LegalRun(cfg, s, events) && events != []
    ensures Shaped(s) && Legal(s, events[0]) && LegalRun(cfg, Step(cfg, s, events[0]), events[1..])
  {
    hide Legal, Step;
  }

  lemma InvCloses(s: Srv, base: int)
    requires Inv(s, base)
    ensures Closing(s, base)
  {
    hide SlotsOk, CountsOk, LogOk, KernelOk;
  }

  lemma ClosingLog(s: Srv, base: int)
    requires Closing(s, base)
    ensures forall k | 0 <= k < |s.log| :: !s.log[k].end.Open? && EndOk(s.log[k].end, s.log[k].sent)
    ensures forall j, k | 0 <= j < k < |s.log| :: s.log[j].id != s.log[k].id
  {
    hide SlotsOk, CountsOk, EndOk;
  }

  /** OnSend once the flag is down and the result is no error. */
  function OnSendRest(d: Conn, res: nat, o: Oracle): Effect
    requires d.len <= |d.buf| && d.off + res <= |d.buf|
  {
    var next := d.(off := d.off + res);
    Wrote(d.buf[d.off..next.off],
          if next.off >= next.len then OrClose(SendComplete(next)) else OrClose(SubmitSend(next, o.writes, o.sqe)))
  }

  // ----- a handler that fails has not closed the slot -------------------------------------------

  predicate KeepsSlot(e: Effect, c: Conn) {
    e.end.Open? && e.c.fd == c.fd && (e.c.state == Free <==> c.state == Free)
  }

  lemma CloseThen(e: Effect)
    requires e.rc != 0
    ensures Then(e, Close(e.c, false)) == OrClose(e)
  {
    assert e.ops + [] == e.ops && e.wrote + "" == e.wrote;
  }

  lemma PollKeepsSlot(c: Conn, sqe: bool)
    ensures KeepsSlot(SubmitPoll(c, sqe), c)
  {}

  lemma RecvKeepsSlot(c: Conn, sqe: bool)
    ensures KeepsSlot(SubmitRecv(c, sqe), c)
  {}

  lemma {:induction false} WriteKeepsSlot(c: Conn, writes: seq<int>, sqe: bool)
    requires c.len <= |c.buf|
    ensures DriveWrite(c, writes, sqe).rc != 0 ==> KeepsSlot(DriveWrite(c, writes, sqe), c)
    decreases |writes|
  {
    if c.ssl && c.off < c.len && writes != [] && writes[0] > 0 {
      var next := c.(off := c.off + Taken(writes[0], c.len - c.off));
      WriteKeepsSlot(next, writes[1..], sqe);
    }
  }

  lemma SendKeepsSlot(c: Conn, writes: seq<int>, sqe: bool)
    requires c.len <= |c.buf|
    ensures SubmitSend(c, writes, sqe).rc != 0 ==> KeepsSlot(SubmitSend(c, writes, sqe), c)
  {
    WriteKeepsSlot(c, writes, sqe);
  }

  lemma BeginKeepsSlot(c: Conn, text: string, o: Oracle)
    requires c.state != Free
    ensures BeginSend(c, text, o).rc != 0 ==> KeepsSlot(BeginSend(c, text, o), c)
  {
    SendKeepsSlot(c.(buf := text, len := |text|, off := 0, state := Sending), o.writes, o.sqe);
  }

  lemma HttpKeepsSlot(c: Conn, n: nat, cap: nat, o: Oracle)
    requires c.state != Free
    ensures HttpBytes(c, n, cap, o).rc != 0 ==> KeepsSlot(HttpBytes(c, n, cap, o), c)
  {
    hide BeginSend;
    BeginKeepsSlot(c, BAD_REQUEST, o);
    if o.feed.FeedReply? { BeginKeepsSlot(c, o.feed.text, o); }
  }

  lemma TlsKeepsSlot(c: Conn, cap: nat, o: Oracle)
    requires c.state != Free && c.len <= |c.buf|
    ensures TlsPoll(c, cap, o).rc != 0 ==> KeepsSlot(TlsPoll(c, cap, o), c)
  {
    hide BeginSend, DriveWrite, HttpBytes;
    BeginKeepsSlot(c, BAD_REQUEST, o);
    if o.read > 0 { HttpKeepsSlot(c, o.read, cap, o); }
    WriteKeepsSlot(c, o.writes, o.sqe);
  }

  /** What Perform leaves in the slot. */
  lemma PerformSlot(s: Srv, i: nat, e: Effect)
    requires Shaped(s) && i < |s.conns|
    ensures Shaped(Perform(s, i, e)) && |Perform(s, i, e).conns| == |s.conns| && Perform(s, i, e).conns[i] == e.c
  {}

  lemma WroteIsThen(first: Effect, e: Effect)
    requires first.ops == []
    ensures Then(first, e) == Wrote(first.wrote, e)
  {
    assert [] + e.ops == e.ops;
  }

  lemma SendCompleteRc(c: Conn)
    ensures SendComplete(c).rc == 0
  {}

  lemma SetThen(s: Srv, i: nat, c: Conn, e: Effect)
    requires Shaped(s) && i < |s.conns| && c.fd == s.conns[i].fd
    ensures Shaped(Perform(s, i, Plain(c, 0))) && Perform(Perform(s, i, Plain(c, 0)), i, e) == Perform(s, i, e)
  {
    PlainFirst(c, 0, e);
    PerformTwice(s, i, Plain(c, 0), e);
  }
}
