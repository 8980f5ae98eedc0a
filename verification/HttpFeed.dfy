/** src/host/edge_http1_serve.c, request assembly: bytes arrive in pieces of any size, and a
    PUT or POST is dispatched once its body is complete. The header parser is a sibling
    library; its events are an input of every call. */
module HttpFeed {
  import opened Text

  const VALUE_MAX: nat := 65536
  const ACC_MAX: nat := VALUE_MAX + 4096

  datatype Event = ParseError | RequestLine(name: string) | HeadersComplete(length: Option<int>) | OtherEvent

  datatype Outcome =
    | Refused                                  // -1
    | Waiting                                  // 0
    | TooLarge | BadRequest                    // 1, with an error response
    | Dispatched(body: seq<byte>, rc: int)

  // ----- the end of the headers -------------------------------------------------------------

  const CR: byte := 13
  const LF: byte := 10

  /** The headers end at `e`: an empty line, ended by LF or CRLF, behind the end of another
      line. */
  predicate EmptyLineEnds(b: seq<byte>, e: nat) {
    && e <= |b|
    && ((e >= 2 && b[e - 2] == LF && b[e - 1] == LF)
        || (e >= 3 && b[e - 3] == LF && b[e - 2] == CR && b[e - 1] == LF))
  }

  /** A line that is not empty ends at `e`. */
  predicate TextLineEnds(b: seq<byte>, e: nat) {
    2 <= e <= |b| && b[e - 1] == LF && b[e - 2] != LF && (b[e - 2] == CR ==> e >= 3 && b[e - 3] != LF)
  }

  /** The headers behind a request line that ends at `from` end at `e`: with the first empty
      line there. */
  ghost predicate HeadEndsAt(b: seq<byte>, from: nat, e: nat) {
    EmptyLineEnds(b, e) && forall j: nat | from < j < e :: !EmptyLineEnds(b, j)
  }

  // The two patterns mark_body_off knows.
  predicate CrLfBlank(b: seq<byte>, i: nat) {
    i + 4 <= |b| && b[i] == CR && b[i + 1] == LF && b[i + 2] == CR && b[i + 3] == LF
  }

  predicate LfBlank(b: seq<byte>, i: nat) {
    i + 2 <= |b| && b[i] == LF && b[i + 1] == LF
  }

  predicate BlankAt(b: seq<byte>, i: nat) {
    CrLfBlank(b, i) || LfBlank(b, i)
  }

  function BlankEnd(b: seq<byte>, i: nat): nat {
    if CrLfBlank(b, i) then i + 4 else i + 2
  }

  /** The first pattern at or behind `i`. */
  function Pattern(b: seq<byte>, i: nat): (r: Option<nat>)
    ensures r.Some? ==> i <= r.value && BlankAt(b, r.value) && forall j | i <= j < r.value :: !BlankAt(b, j)
    ensures r.None? ==> forall j | i <= j :: !BlankAt(b, j)
    decreases |b| - i
  {
    if i >= |b| then None else if BlankAt(b, i) then Some(i) else Pattern(b, i + 1)
  }

  /** What mark_body_off finds at or behind `i`: it only looks where three more bytes are
      there, even for the two-byte form. */
  function Found(b: seq<byte>, i: nat): (r: Option<nat>)
    ensures r.Some? ==> r.value <= |b|
    decreases |b| - i
  {
    if i + 3 >= |b| then None
    else if BlankAt(b, i) then Some(BlankEnd(b, i))
    else Found(b, i + 1)
  }

  /** The first pattern is found as soon as the bytes from its first on number four. */
  lemma {:induction false} FoundWhen(all: seq<byte>, n: nat, i: nat)
    requires n <= |all|
    ensures Found(all[..n], i) == match Pattern(all, i)
                                  case None => None
                                  case Some(p) => if p + 4 <= n then Some(BlankEnd(all, p)) else None
    decreases |all| - i
  {
    if i + 3 < n {
      assert BlankAt(all[..n], i) == BlankAt(all, i);
      assert BlankAt(all, i) ==> BlankEnd(all[..n], i) == BlankEnd(all, i);
      FoundWhen(all, n, i + 1);
    }
  }

  // ----- one call ---------------------------------------------------------------------------

  datatype Conn = Conn(acc: seq<byte>, bodyOff: Option<nat>, headersDone: bool, done: bool, verb: string, length: int)

  const FRESH := Conn([], None, false, false, "", -1)

  function Mark(c: Conn): Conn {
    match Found(c.acc, 0)
    case None => c
    case Some(off) => c.(bodyOff := Some(off))
  }

  function MarkOnce(c: Conn): Conn {
    if c.bodyOff.Some? then c else Mark(c)
  }

  function Apply(c: Conn, e: Event): Conn {
    match e
    case RequestLine(name) => c.(verb := Clip(name, 16))
    case HeadersComplete(length) => Mark(c).(headersDone := true, length := if length.Some? then length.value else 0)
    case _ => c
  }

  /** Events are taken up to the first error. */
  function ApplyAll(c: Conn, events: seq<Event>): (Conn, bool)
    decreases |events|
  {
    if events == [] then (c, false)
    else if events[0] == ParseError then (c, true)
    else ApplyAll(Apply(c, events[0]), events[1..])
  }

  /** wait_full_body, after marking. */
  predicate Full(c: Conn) {
    c.length <= 0 || (c.bodyOff.Some? && |c.acc| - c.bodyOff.value >= c.length)
  }

  /** get_body, after marking. */
  function Body(c: Conn): seq<byte> {
    match c.bodyOff
    case None => []
    case Some(off) =>
      if off >= |c.acc| then []
      else if 0 <= c.length < |c.acc| - off then c.acc[off..off + c.length]
      else c.acc[off..]
  }

  predicate WaitsForBody(c: Conn) {
    (c.verb == "PUT" || c.verb == "POST") && c.length > 0
  }

  /** After the events: wait or dispatch. */
  function Settle(c: Conn, rc: int): (Conn, Outcome) {
    if !c.headersDone then (c, Waiting)
    else
      var m := if WaitsForBody(c) then MarkOnce(c) else c;
      if WaitsForBody(c) && !Full(m) then (m, Waiting)
      else
        var d := MarkOnce(m);
        (d.(done := rc == 1), Dispatched(Body(d), rc))
  }

  function Step(c: Conn, data: seq<byte>, events: seq<Event>, built: bool, rc: int): (Conn, Outcome) {
    if c.done then (c, Refused)
    else if data == [] then (c, Waiting)
    else if |c.acc| + |data| > ACC_MAX then
      if built then (c.(done := true), TooLarge) else (c, Refused)
    else
      var (next, bad) := ApplyAll(c.(acc := c.acc + data), events);
      if bad then
        if built then (next.(done := true), BadRequest) else (next, Refused)
      else Settle(next, rc)
  }

  // ----- the code -----------------------------------------------------------------------------

  class Serve {
    const acc: array<byte>
    var accLen: nat
    var bodyOff: nat
    var haveBodyOff: bool
    var headersDone: bool
    var done: bool
    var verb: string
    var contentLength: int

    ghost predicate Valid()
      reads this
    {
      acc.Length == ACC_MAX && accLen <= ACC_MAX
    }

    ghost function State(): Conn
      requires Valid()
      reads this, acc
    {
      Conn(acc[..accLen], if haveBodyOff then Some(bodyOff) else None, headersDone, done, verb, contentLength)
    }

    /** edge_http1_serve_create, reset. */
    constructor ()
      ensures Valid() && State() == FRESH && fresh(acc)
    {
      acc := new byte[ACC_MAX](_ => 0);
      accLen, bodyOff, haveBodyOff, headersDone, done, verb, contentLength := 0, 0, false, false, false, "", -1;
    }

    /** mark_body_off */
    method MarkBodyOff()
      requires Valid()
      modifies this`bodyOff, this`haveBodyOff
      ensures Valid() && State() == Mark(old(State()))
    {
      var i := 0;
      while i + 3 < accLen
        invariant Found(acc[..accLen], i) == Found(acc[..accLen], 0)
        invariant haveBodyOff == old(haveBodyOff) && bodyOff == old(bodyOff)
        decreases accLen - i
      {
        if acc[i] == CR && acc[i + 1] == LF && acc[i + 2] == CR && acc[i + 3] == LF {
          bodyOff, haveBodyOff := i + 4, true;
          return;
        }
        if acc[i] == LF && acc[i + 1] == LF {
          bodyOff, haveBodyOff := i + 2, true;
          return;
        }
        i := i + 1;
      }
    }

    /** wait_full_body */
    method WaitFullBody() returns (full: bool)
      requires Valid()
      modifies this`bodyOff, this`haveBodyOff
      ensures Valid() && State() == (if contentLength > 0 then MarkOnce(old(State())) else old(State()))
      ensures full == Full(State())
    {
      hide Found;
      if contentLength <= 0 { return true; }
      if !haveBodyOff { MarkBodyOff(); }
      var have := 0;
      if haveBodyOff { have := accLen - bodyOff; }
      full := have >= contentLength;
    }

    /** get_body */
    method GetBody() returns (body: seq<byte>)
      requires Valid()
      modifies this`bodyOff, this`haveBodyOff
      ensures Valid() && State() == MarkOnce(old(State())) && body == Body(State())
    {
      hide Found;
      if !haveBodyOff { MarkBodyOff(); }
      if !haveBodyOff { return []; }
      var blen := if accLen > bodyOff then accLen - bodyOff else 0;
      if contentLength >= 0 && blen > contentLength { blen := contentLength; }
      if blen == 0 { return []; }
      body := acc[..accLen][bodyOff..bodyOff + blen];
    }

    /** memcpy behind what is there. */
    method Append(data: seq<byte>)
      requires Valid() && accLen + |data| <= ACC_MAX
      modifies this`accLen, acc
      ensures Valid() && State() == old(State()).(acc := old(State()).acc + data)
    {
      ghost var before := acc[..accLen];
      for i := 0 to |data|
        invariant acc[..accLen + i] == before + data[..i]
        modifies acc
      {
        acc[accLen + i] := data[i];
      }
      assert data[..|data|] == data;
      accLen := accLen + |data|;
    }

    /** The loop over the parser's events. */
    method TakeEvents(events: seq<Event>) returns (bad: bool)
      requires Valid()
      modifies this`bodyOff, this`haveBodyOff, this`headersDone, this`verb, this`contentLength
      ensures Valid() && (State(), bad) == ApplyAll(old(State()), events)
    {
      hide Mark, Clip;
      var i := 0;
      assert events[0..] == events;
      while i < |events|
        invariant i <= |events| && Valid() && ApplyAll(State(), events[i..]) == ApplyAll(old(State()), events)
      {
        assert events[i..][1..] == events[i + 1..];
        if events[i] == ParseError { return true; }
        match events[i] {
          case RequestLine(name) => verb := Clip(name, 16);
          case HeadersComplete(length) =>
            MarkCommutes(State());
            headersDone := true;
            MarkBodyOff();
            contentLength := if length.Some? then length.value else 0;
          case _ =>
        }
        i := i + 1;
      }
      return false;
    }

    /** edge_http1_serve_feed. `built` says whether an error response fits the caller's
        buffer and `rc` what dispatch returns. */
    method Feed(data: seq<byte>, events: seq<Event>, built: bool, rc: int) returns (out: Outcome)
      requires Valid()
      modifies this, acc
      ensures Valid() && (State(), out) == Step(old(State()), data, events, built, rc)
    {
      hide MarkOnce, Body, Full, ApplyAll;
      if done { return Refused; }
      if |data| == 0 { return Waiting; }
      if accLen + |data| > ACC_MAX {
        if !built { return Refused; }
        done := true;
        return TooLarge;
      }
      Append(data);
      var bad := TakeEvents(events);
      if bad {
        if !built { return Refused; }
        done := true;
        return BadRequest;
      }
      if !headersDone { return Waiting; }
      if (verb == "PUT" || verb == "POST") && contentLength > 0 {
        var full := WaitFullBody();
        if !full { return Waiting; }
      }
      var body := GetBody();
      if rc == 1 { done := true; }
      out := Dispatched(body, rc);
    }
  }

  lemma MarkCommutes(c: Conn)
    ensures Mark(c.(headersDone := true)) == Mark(c).(headersDone := true)
  {}

  // ----- any splitting of a request ---------------------------------------------------------

  /** A request: its bytes with whatever empty lines the parser skips in front,
      where its headers and its request line end, its method and its Content-Length, 0 if it
      has none. */
  datatype Request = Request(bytes: seq<byte>, head: nat, lineEnd: nat, verb: string, length: int)

  ghost predicate HeadRequest(r: Request) {
    && TextLineEnds(r.bytes, r.lineEnd) && r.lineEnd < r.head && HeadEndsAt(r.bytes, r.lineEnd, r.head)
    && r.head <= |r.bytes| <= ACC_MAX
  }

  ghost predicate BodyRequest(r: Request) {
    && HeadRequest(r) && (r.verb == "PUT" || r.verb == "POST") && r.length > 0
    && r.head + r.length <= |r.bytes|
  }

  function RequestBody(r: Request): seq<byte>
    requires 0 <= r.length && r.head + r.length <= |r.bytes|
  {
    r.bytes[r.head..r.head + r.length]
  }

  predicate Declares(header: Option<int>, length: int) {
    header == Some(length) || (header == None && length == 0)
  }

  /** The parser on the bytes from n to n': no error, and each milestone in the call that
      brings its last byte. */
  ghost predicate Parses(r: Request, n: nat, n': nat, events: seq<Event>) {
    && (forall i | 0 <= i < |events| :: !events[i].ParseError?)
    && (forall i | 0 <= i < |events| && events[i].RequestLine? :: events[i].name == r.verb)
    && (forall i | 0 <= i < |events| && events[i].HeadersComplete? :: Declares(events[i].length, r.length))
    && ((exists i :: 0 <= i < |events| && events[i].RequestLine?) <==> n < r.lineEnd <= n')
    && ((exists i :: 0 <= i < |events| && events[i].HeadersComplete?) <==> n < r.head <= n')
  }

  /** Where the scan takes the headers to end, in the end. */
  function Scan(r: Request): Option<nat> {
    Pattern(r.bytes, 0)
  }

  function Larger(a: int, b: int): int {
    if a >= b then a else b
  }

  /** How many bytes the code needs before it dispatches: the end of the headers for the
      parser, and for the scan the pattern and the body behind it. Never, without a pattern. */
  function Due(r: Request): Option<int> {
    match Scan(r)
    case None => None
    case Some(p) => Some(Larger(Larger(BlankEnd(r.bytes, p) + r.length, p + 4), r.head))
  }

  predicate Reached(r: Request, n: nat) {
    Due(r).Some? && Due(r).value <= n
  }

  /** What it then takes for the body. */
  function SeenBody(r: Request): seq<byte>
    requires Scan(r).Some? && 0 <= r.length && BlankEnd(r.bytes, Scan(r).value) + r.length <= |r.bytes|
  {
    var off := BlankEnd(r.bytes, Scan(r).value);
    r.bytes[off..off + r.length]
  }

  /** A pattern in front of the end of the request line: the parser skipped empty lines. */
  ghost predicate Early(r: Request) {
    exists p: nat :: BlankAt(r.bytes, p) && BlankEnd(r.bytes, p) < r.lineEnd
  }

  /** A pattern ends where an empty line ends, so in front of the request line or not before
      the headers do. */
  lemma ScanPlace(r: Request)
    requires BodyRequest(r) && Scan(r).Some?
    ensures var off := BlankEnd(r.bytes, Scan(r).value);
            && off <= |r.bytes| && Scan(r).value + 2 <= off <= Scan(r).value + 4
            && (Early(r) ==> off < r.lineEnd) && (!Early(r) ==> r.head <= off)
  {
    var p := Scan(r).value;
    assert EmptyLineEnds(r.bytes, BlankEnd(r.bytes, p));
    if Early(r) {
      var q: nat :| BlankAt(r.bytes, q) && BlankEnd(r.bytes, q) < r.lineEnd;
      FirstEndsFirst(r.bytes, p, q);
    } else {
      assert BlankAt(r.bytes, p);
    }
  }

  lemma FirstEndsFirst(b: seq<byte>, p: nat, q: nat)
    requires p <= q && BlankAt(b, p) && BlankAt(b, q)
    ensures BlankEnd(b, p) <= BlankEnd(b, q)
  {}

  lemma EarlyIsSeen(r: Request)
    requires Early(r)
    ensures Scan(r).Some?
  {}

  ghost predicate Bodied(r: Request, n: nat, off: Option<nat>) {
    off.Some? ==> Scan(r).Some? && off.value == BlankEnd(r.bytes, Scan(r).value) && Scan(r).value + 4 <= n
  }

  /** The state after n bytes, before dispatch. */
  ghost predicate Gathering(r: Request, n: nat, c: Conn) {
    && n <= |r.bytes| && c.acc == r.bytes[..n] && !c.done
    && (c.headersDone <==> r.head <= n)
    && (r.lineEnd <= n ==> c.verb == Clip(r.verb, 16))
    && (c.headersDone ==> c.length == r.length)
    && Bodied(r, n, c.bodyOff)
  }

  lemma MarkFinds(r: Request, n: nat, c: Conn)
    requires n <= |r.bytes| && c.acc == r.bytes[..n]
    ensures Mark(c) == if Scan(r).Some? && Scan(r).value + 4 <= n
                       then c.(bodyOff := Some(BlankEnd(r.bytes, Scan(r).value))) else c
  {
    hide Found, Pattern, BlankEnd;
    FoundWhen(r.bytes, n, 0);
  }

  /** What the events of an honest parser do. */
  lemma {:induction false} EventsApply(r: Request, n: nat, c: Conn, events: seq<Event>)
    requires n <= |r.bytes| && c.acc == r.bytes[..n] && Bodied(r, n, c.bodyOff)
    requires forall i | 0 <= i < |events| :: !events[i].ParseError?
    requires forall i | 0 <= i < |events| && events[i].RequestLine? :: events[i].name == r.verb
    requires forall i | 0 <= i < |events| && events[i].HeadersComplete? :: Declares(events[i].length, r.length)
    ensures var (d, bad) := ApplyAll(c, events);
            && !bad && d.acc == c.acc && d.done == c.done && Bodied(r, n, d.bodyOff)
            && (d.headersDone <==> c.headersDone || exists i :: 0 <= i < |events| && events[i].HeadersComplete?)
            && d.verb == (if exists i :: 0 <= i < |events| && events[i].RequestLine? then Clip(r.verb, 16) else c.verb)
            && d.length == (if exists i :: 0 <= i < |events| && events[i].HeadersComplete? then r.length else c.length)
    decreases |events|
  {
    hide Mark, Pattern, BlankEnd, Clip;
    if events != [] {
      MarkFinds(r, n, c);
      EventsApply(r, n, Apply(c, events[0]), events[1..]);
      assert forall i | 0 < i < |events| :: events[i] == events[1..][i - 1];
      Somewhere(events);
    }
  }

  lemma Somewhere(events: seq<Event>)
    requires events != []
    ensures (exists i :: 0 <= i < |events| && events[i].HeadersComplete?)
            <==> events[0].HeadersComplete? || exists i :: 0 <= i < |events[1..]| && events[1..][i].HeadersComplete?
    ensures (exists i :: 0 <= i < |events| && events[i].RequestLine?)
            <==> events[0].RequestLine? || exists i :: 0 <= i < |events[1..]| && events[1..][i].RequestLine?
  {
    assert forall i | 0 <= i < |events[1..]| :: events[1..][i] == events[i + 1];
    if i :| 0 <= i < |events| && events[i].HeadersComplete? {
      assert i > 0 ==> events[1..][i - 1] == events[i];
    }
    if i :| 0 <= i < |events| && events[i].RequestLine? {
      assert i > 0 ==> events[1..][i - 1] == events[i];
    }
  }

  lemma ShortVerb(r: Request)
    requires BodyRequest(r)
    ensures Clip(r.verb, 16) == r.verb
  {}

  /** One call on the next bytes of a request: it waits below the due count, and dispatches
      as soon as the count is reached. */
  lemma FeedStep(r: Request, n: nat, c: Conn, data: seq<byte>, events: seq<Event>, built: bool, rc: int)
    requires BodyRequest(r) && Gathering(r, n, c) && data != []
    requires n + |data| <= |r.bytes| && data == r.bytes[n..n + |data|] && Parses(r, n, n + |data|, events)
    ensures var (d, out) := Step(c, data, events, built, rc);
            if Reached(r, n + |data|) then DueFits(r, n + |data|) && out == Dispatched(SeenBody(r), rc) && d.done == (rc == 1)
            else out == Waiting && Gathering(r, n + |data|, d)
  {
    hide ApplyAll, Mark, HeadEndsAt, BlankEnd, Pattern, Due, DueFits;
    var n' := n + |data|;
    var c' := c.(acc := c.acc + data);
    assert c'.acc == r.bytes[..n'];
    EventsApply(r, n', c', events);
    var (d, bad) := ApplyAll(c', events);
    assert Gathering(r, n', d);
    SettleAt(r, n', d, rc);
  }

  /** The body seen lies inside what has come. */
  predicate DueFits(r: Request, n: nat) {
    Scan(r).Some? && 0 <= r.length && BlankEnd(r.bytes, Scan(r).value) + r.length <= n <= |r.bytes|
  }

  lemma SettleAt(r: Request, n: nat, c: Conn, rc: int)
    requires BodyRequest(r) && Gathering(r, n, c)
    ensures var (d, out) := Settle(c, rc);
            if Reached(r, n) then DueFits(r, n) && out == Dispatched(SeenBody(r), rc) && d.done == (rc == 1)
            else out == Waiting && Gathering(r, n, d)
  {
    hide Mark, HeadEndsAt, TextLineEnds, Early, BlankEnd, Pattern, Body;
    MarkFinds(r, n, c);
    ShortVerb(r);
    if Scan(r).Some? { ScanPlace(r); }
    if Reached(r, n) {
      BodyAt(r, n, MarkOnce(c), BlankEnd(r.bytes, Scan(r).value));
    }
  }

  lemma BodyAt(r: Request, n: nat, c: Conn, off: nat)
    requires n <= |r.bytes| && c.acc == r.bytes[..n] && c.bodyOff == Some(off) && c.length == r.length > 0
    requires off + r.length <= n
    ensures Body(c) == r.bytes[off..off + r.length]
  {
    assert c.acc[off..off + r.length] == r.bytes[off..off + r.length];
    assert n == off + r.length ==> c.acc[off..] == c.acc[off..off + r.length];
  }

  datatype Call = Call(data: seq<byte>, events: seq<Event>, built: bool, rc: int)

  function Total(calls: seq<Call>): nat {
    if calls == [] then 0 else Total(calls[..|calls| - 1]) + |calls[|calls| - 1].data|
  }

  /** The state and the last outcome after some calls on a fresh connection. */
  function Fed(calls: seq<Call>): (Conn, Outcome) {
    if calls == [] then (FRESH, Waiting)
    else
      var last := calls[|calls| - 1];
      Step(Fed(calls[..|calls| - 1]).0, last.data, last.events, last.built, last.rc)
  }

  /** The calls bring the bytes of the request in pieces, the parser being honest. */
  ghost predicate Pieces(r: Request, calls: seq<Call>) {
    if calls == [] then true
    else
      var init, last := calls[..|calls| - 1], calls[|calls| - 1];
      && Pieces(r, init) && last.data != [] && Total(calls) <= |r.bytes|
      && last.data == r.bytes[Total(init)..Total(calls)]
      && Parses(r, Total(init), Total(calls), last.events)
  }

  /** For every way of cutting a body request into pieces: while fewer than Due bytes have
      come every call returns 0, and the call that brings the Due-th byte dispatches what
      the scan takes for the body. */
  lemma {:induction false} AnySplit(r: Request, calls: seq<Call>)
    requires BodyRequest(r) && Pieces(r, calls)
    ensures !Reached(r, Total(calls)) ==> Gathering(r, Total(calls), Fed(calls).0) && Fed(calls).1 == Waiting
    ensures calls != [] && !Reached(r, Total(calls[..|calls| - 1])) && Reached(r, Total(calls)) ==>
              DueFits(r, Total(calls)) && Fed(calls).1 == Dispatched(SeenBody(r), calls[|calls| - 1].rc)
  {
    hide Step, Gathering, Parses, BodyRequest, Due, Scan, DueFits;
    if calls == [] {
      FreshGathers(r);
    } else {
      var init, last := calls[..|calls| - 1], calls[|calls| - 1];
      AnySplit(r, init);
      if !Reached(r, Total(init)) {
        FeedStep(r, Total(init), Fed(init).0, last.data, last.events, last.built, last.rc);
      }
    }
  }

  lemma FreshGathers(r: Request)
    requires BodyRequest(r)
    ensures Gathering(r, 0, FRESH) && !Reached(r, 0)
  {
    if Scan(r).Some? { ScanPlace(r); }
  }

  /** The end of the headers the code notices in time: no pattern stands in front of it, and
      the empty line is written CRLF behind CRLF, or LF behind LF if the body is longer than
      one byte. */
  ghost predicate Noticed(r: Request) {
    && !Early(r)
    && ((r.head >= 4 && CrLfBlank(r.bytes, r.head - 4))
        || (r.head >= 2 && LfBlank(r.bytes, r.head - 2) && r.length > 1))
  }

  /** Where the due byte is: at the last byte of the body if the end of the headers is noticed
      in time, before it if a pattern comes early, and otherwise behind it or nowhere. */
  lemma DueCases(r: Request)
    requires BodyRequest(r)
    ensures Noticed(r) ==> Due(r) == Some(r.head + r.length) && DueFits(r, r.head + r.length) && SeenBody(r) == RequestBody(r)
    ensures Early(r) ==> Due(r).Some? && r.head <= Due(r).value < r.head + r.length
    ensures !Noticed(r) && !Early(r) ==> Due(r).None? || r.head + r.length < Due(r).value
  {
    if Early(r) {
      EarlyIsSeen(r);
      ScanPlace(r);
    } else if r.head >= 4 && CrLfBlank(r.bytes, r.head - 4) {
      FirstPattern(r, r.head - 4);
    } else if r.head >= 2 && LfBlank(r.bytes, r.head - 2) {
      FirstPattern(r, r.head - 2);
    } else if Scan(r).Some? {
      ScanPlace(r);
      PatternEnds(r.bytes, Scan(r).value);
    }
  }

  /** A pattern that ends where the headers end is the first one if none comes early. */
  lemma FirstPattern(r: Request, p: nat)
    requires BodyRequest(r) && !Early(r) && BlankAt(r.bytes, p) && BlankEnd(r.bytes, p) == r.head
    ensures Scan(r) == Some(p)
  {
    assert Scan(r).Some? && Scan(r).value <= p;
    ScanPlace(r);
    FirstEndsFirst(r.bytes, Scan(r).value, p);
    SameEnd(r.bytes, Scan(r).value, p);
  }

  lemma SameEnd(b: seq<byte>, p: nat, q: nat)
    requires BlankAt(b, p) && BlankAt(b, q) && BlankEnd(b, p) == BlankEnd(b, q)
    ensures p == q
  {}

  /** A pattern ends in one of the two ways. */
  lemma PatternEnds(b: seq<byte>, p: nat)
    requires BlankAt(b, p)
    ensures var e := BlankEnd(b, p); (e >= 4 && CrLfBlank(b, e - 4)) || (e >= 2 && LfBlank(b, e - 2))
  {}

  ghost predicate Alone(r: Request) {
    BodyRequest(r) && |r.bytes| == r.head + r.length
  }

  /** What the calls of one splitting return. A noticed end: 0 until the last byte, which
      dispatches the body. An early pattern: whichever call brings the due byte, before the
      last, dispatches what the scan sees. Otherwise 0 for ever. */
  lemma DispatchedIff(r: Request, calls: seq<Call>)
    requires Alone(r) && Pieces(r, calls)
    ensures Total(calls) < |r.bytes| && Noticed(r) ==> Fed(calls).1 == Waiting
    ensures Total(calls) == |r.bytes| && Noticed(r) ==>
              calls != [] && Fed(calls).1 == Dispatched(RequestBody(r), calls[|calls| - 1].rc)
    ensures !Noticed(r) && !Early(r) ==> Fed(calls).1 == Waiting
    ensures Early(r) && calls != [] && !Reached(r, Total(calls[..|calls| - 1])) && Reached(r, Total(calls)) ==>
              DueFits(r, Total(calls)) && Fed(calls).1 == Dispatched(SeenBody(r), calls[|calls| - 1].rc)
  {
    hide Noticed, Early, BlankEnd, Pattern, HeadEndsAt, Fed, Due, DueFits, Scan;
    DueCases(r);
    TotalBound(r, calls);
    if calls != [] { LastIsReal(r, calls); }
    AnySplit(r, calls);
    assert Due(r).Some? ==> (Reached(r, Total(calls)) <==> Due(r).value <= Total(calls));
  }

  lemma LastIsReal(r: Request, calls: seq<Call>)
    requires Pieces(r, calls) && calls != []
    ensures Total(calls[..|calls| - 1]) < Total(calls) <= |r.bytes|
  {}

  /** The promise of the assembler: however a request is cut, every call before the last
      byte returns 0 and the last one dispatches exactly the body. */
  ghost predicate KeepsPromise(r: Request)
    requires Alone(r)
  {
    forall calls: seq<Call> | Pieces(r, calls) && Total(calls) == |r.bytes| ::
      && (forall k | 0 <= k < |calls| :: Fed(calls[..k]).1 == Waiting)
      && calls != [] && Fed(calls).1 == Dispatched(RequestBody(r), calls[|calls| - 1].rc)
  }

  /** The promise is kept if and only if the end of the headers is noticed in time. */
  lemma PromiseIff(r: Request)
    requires Alone(r)
    ensures KeepsPromise(r) <==> Noticed(r)
  {
    hide Noticed, Early, HeadEndsAt, TextLineEnds, Fed, Pieces, Due, Total, Scan, SeenBody, DueFits, Reached;
    if Noticed(r) {
      forall calls: seq<Call> | Pieces(r, calls) && Total(calls) == |r.bytes|
        ensures forall k | 0 <= k < |calls| :: Fed(calls[..k]).1 == Waiting
        ensures calls != [] && Fed(calls).1 == Dispatched(RequestBody(r), calls[|calls| - 1].rc)
      {
        DispatchedIff(r, calls);
        forall k | 0 <= k < |calls| ensures Fed(calls[..k]).1 == Waiting {
          FrontPieces(r, calls, k);
          DispatchedIff(r, calls[..k]);
        }
      }
    } else if Early(r) {
      EarlySplit(r);
    } else {
      OnePiece(r, 1);
    }
  }

  lemma {:induction false} FrontPieces(r: Request, calls: seq<Call>, k: nat)
    requires Pieces(r, calls) && k < |calls|
    ensures Pieces(r, calls[..k]) && Total(calls[..k]) < Total(calls)
  {
    hide Parses;
    var init := calls[..|calls| - 1];
    LastIsReal(r, calls);
    if k == |calls| - 1 {
      assert calls[..k] == init;
    } else {
      assert init[..k] == calls[..k];
      FrontPieces(r, init, k);
    }
  }

  function ParserEvents(r: Request): seq<Event> {
    [RequestLine(r.verb), HeadersComplete(Some(r.length))]
  }

  lemma EventsParse(r: Request, n: nat)
    requires BodyRequest(r) && r.head <= n <= |r.bytes|
    ensures Parses(r, 0, n, ParserEvents(r)) && (n < |r.bytes| ==> Parses(r, n, |r.bytes|, []))
  {
    assert ParserEvents(r)[0].RequestLine? && ParserEvents(r)[1].HeadersComplete?;
    hide HeadEndsAt;
  }

  lemma FirstCall(r: Request, n: nat, rc: int)
    requires BodyRequest(r) && r.head <= n <= |r.bytes|
    ensures var calls := [Call(r.bytes[..n], ParserEvents(r), true, rc)];
            Pieces(r, calls) && Total(calls) == n && Pieces(r, []) && Total([]) == 0
  {
    hide HeadEndsAt, Parses;
    var calls := [Call(r.bytes[..n], ParserEvents(r), true, rc)];
    EventsParse(r, n);
    assert Total([]) == 0 && calls[..0] == [] && Total(calls) == n && r.bytes[0..n] == r.bytes[..n];
  }

  /** Cut where the early pattern is due, a request is dispatched before its last byte. */
  lemma EarlySplit(r: Request)
    requires Alone(r) && Early(r)
    ensures !KeepsPromise(r)
  {
    hide Early, Due, Fed, HeadEndsAt, Parses, BlankEnd, Scan, SeenBody, Step;
    DueCases(r);
    var n := Due(r).value;
    var one := Call(r.bytes[..n], ParserEvents(r), true, 1);
    var two := Call(r.bytes[n..], [], true, 1);
    var calls := [one, two];
    FirstCall(r, n, 1);
    assert calls[..1] == [one] && [one][..0] == [];
    EventsParse(r, n);
    assert r.bytes[n..] == r.bytes[n..|r.bytes|];
    assert Pieces(r, calls) && Total(calls) == |r.bytes|;
    assert Reached(r, n) && !Reached(r, 0);
    DispatchedIff(r, [one]);
    assert Fed(calls[..1]).1 != Waiting;
  }

  /** The whole request in one call, with the events of its parser. */
  lemma OnePiece(r: Request, rc: int)
    requires Alone(r)
    ensures var calls := [Call(r.bytes, ParserEvents(r), true, rc)];
            && Pieces(r, calls) && Total(calls) == |r.bytes|
            && (Noticed(r) ==> Fed(calls).1 == Dispatched(RequestBody(r), rc))
            && (Early(r) ==> DueFits(r, |r.bytes|) && Fed(calls).1 == Dispatched(SeenBody(r), rc))
            && (!Noticed(r) && !Early(r) ==> Fed(calls).1 == Waiting)
  {
    hide Fed, Noticed, Early, HeadEndsAt, Due, Parses, DueFits, Scan, BlankEnd, SeenBody;
    var calls := [Call(r.bytes, ParserEvents(r), true, rc)];
    FirstCall(r, |r.bytes|, rc);
    assert r.bytes[..|r.bytes|] == r.bytes && calls[..|calls| - 1] == [];
    DueCases(r);
    DispatchedIff(r, calls);
  }

  /** A request behind two empty lines hands out what stands behind these as its body. */
  lemma LeadingLinesAreTaken(r: Request, rc: int)
    requires Alone(r) && CrLfBlank(r.bytes, 0)
    ensures 4 + r.length <= |r.bytes|
    ensures Fed([Call(r.bytes, ParserEvents(r), true, rc)]).1 == Dispatched(r.bytes[4..4 + r.length], rc)
  {
    assert r.lineEnd >= 5;
    assert BlankAt(r.bytes, 0) && BlankEnd(r.bytes, 0) == 4;
    assert Early(r);
    assert Scan(r) == Some(0);
    hide Fed, Early;
    OnePiece(r, rc);
    assert SeenBody(r) == r.bytes[4..4 + r.length];
    hide Noticed;
    DueCases(r);
  }

  // ----- requests without a body to wait for --------------------------------------------------

  /** Any other method, or no positive Content-Length. */
  ghost predicate PlainRequest(r: Request) {
    HeadRequest(r) && ((r.verb != "PUT" && r.verb != "POST") || r.length <= 0)
  }

  /** The bytes behind the first pattern once it is found, as many of those received as the
      Content-Length asks for. */
  function SeenBy(r: Request, n: nat): seq<byte>
    requires n <= |r.bytes|
  {
    match Scan(r)
    case None => []
    case Some(p) =>
      var off := BlankEnd(r.bytes, p);
      if p + 4 > n || off >= n then []
      else r.bytes[off..if 0 <= r.length && off + r.length < n then off + r.length else n]
  }

  /** The headers were complete in one of the calls and dispatch returned 1 then or later. */
  predicate Answered(r: Request, calls: seq<Call>) {
    calls != [] && (Answered(r, calls[..|calls| - 1]) || (r.head <= Total(calls) && calls[|calls| - 1].rc == 1))
  }

  /** The state after n bytes while dispatch may still be called. */
  ghost predicate Listening(r: Request, n: nat, c: Conn) {
    && n <= |r.bytes| && c.acc == r.bytes[..n]
    && (c.headersDone <==> r.head <= n) && Bodied(r, n, c.bodyOff)
    && (r.lineEnd <= n ==> c.verb == Clip(r.verb, 16)) && (c.headersDone ==> c.length == r.length)
  }

  lemma NoWait(r: Request, c: Conn)
    requires PlainRequest(r) && c.verb == Clip(r.verb, 16) && c.length == r.length
    ensures !WaitsForBody(c)
  {
    hide HeadRequest;
  }

  lemma BodySeen(r: Request, n: nat, c: Conn)
    requires n <= |r.bytes| && c.acc == r.bytes[..n] && Bodied(r, n, c.bodyOff) && c.length == r.length
    ensures var d := MarkOnce(c); d.acc == c.acc && Bodied(r, n, d.bodyOff) && Body(d) == SeenBy(r, n)
    ensures MarkOnce(c) == c.(bodyOff := MarkOnce(c).bodyOff)
  {
    hide Mark, BlankEnd, Pattern, Scan;
    MarkFinds(r, n, c);
    if Scan(r).Some? && Scan(r).value + 4 <= n {
      var off := BlankEnd(r.bytes, Scan(r).value);
      if off < n {
        assert c.acc[off..] == r.bytes[off..n];
        if 0 <= r.length && off + r.length < n { assert c.acc[off..off + r.length] == r.bytes[off..off + r.length]; }
      }
    }
  }

  /** One call on the next bytes of such a request. */
  lemma PlainStep(r: Request, n: nat, c: Conn, data: seq<byte>, events: seq<Event>, built: bool, rc: int)
    requires PlainRequest(r) && Listening(r, n, c) && !c.done && data != []
    requires n + |data| <= |r.bytes| && data == r.bytes[n..n + |data|] && Parses(r, n, n + |data|, events)
    ensures var (d, out) := Step(c, data, events, built, rc);
            && Listening(r, n + |data|, d) && (d.done <==> r.head <= n + |data| && rc == 1)
            && out == if r.head <= n + |data| then Dispatched(SeenBy(r, n + |data|), rc) else Waiting
  {
    hide ApplyAll, Mark, MarkOnce, HeadEndsAt, BlankEnd, Pattern, TextLineEnds, SeenBy, Body, WaitsForBody, Clip;
    var n' := n + |data|;
    var c' := c.(acc := c.acc + data);
    assert c'.acc == r.bytes[..n'];
    EventsApply(r, n', c', events);
    var (d, bad) := ApplyAll(c', events);
    if r.head <= n' {
      NoWait(r, d);
      BodySeen(r, n', d);
    }
  }

  /** For every way of cutting a request without a body to wait for: each call that ends
      before the headers do returns 0, and each later one dispatches, with what stands behind
      the headers, until dispatch has returned 1. */
  lemma {:induction false} PlainSplit(r: Request, calls: seq<Call>)
    requires PlainRequest(r) && Pieces(r, calls)
    ensures calls != [] ==>
              Fed(calls).1 == if Total(calls) < r.head then Waiting
                              else if Answered(r, calls[..|calls| - 1]) then Refused
                              else Dispatched(SeenBy(r, Total(calls)), calls[|calls| - 1].rc)
    ensures Fed(calls).0.done == Answered(r, calls)
    ensures !Answered(r, calls) ==> Listening(r, Total(calls), Fed(calls).0)
    ensures Total(calls) < r.head ==> !Answered(r, calls)
  {
    hide Step, Parses, SeenBy, Listening;
    if calls == [] {
      NothingHeard(r);
    } else {
      var init, last := calls[..|calls| - 1], calls[|calls| - 1];
      PlainSplit(r, init);
      LastIsReal(r, calls);
      if Answered(r, init) {
        DoneRefuses(Fed(init).0, last);
      } else {
        PlainStep(r, Total(init), Fed(init).0, last.data, last.events, last.built, last.rc);
      }
    }
  }

  lemma NothingHeard(r: Request)
    requires PlainRequest(r)
    ensures Listening(r, 0, FRESH)
  {}

  lemma DoneRefuses(c: Conn, call: Call)
    requires c.done
    ensures Step(c, call.data, call.events, call.built, call.rc) == (c, Refused)
  {}

  /** The call that brings the last byte of the headers, nothing behind them, hands out an
      empty body; and so does every call of a request without a Content-Length. */
  lemma NothingBehind(r: Request, n: nat)
    requires PlainRequest(r) && n <= |r.bytes|
    ensures r.length == 0 || (n == r.head && !Early(r)) ==> SeenBy(r, n) == []
  {
    hide Early, Pattern, BlankEnd, HeadEndsAt, TextLineEnds;
    if Scan(r).Some? && !Early(r) { PlainScan(r); }
  }

  lemma PlainScan(r: Request)
    requires HeadRequest(r) && Scan(r).Some? && !Early(r)
    ensures r.head <= BlankEnd(r.bytes, Scan(r).value)
  {
    assert BlankAt(r.bytes, Scan(r).value);
    assert EmptyLineEnds(r.bytes, BlankEnd(r.bytes, Scan(r).value));
  }

  /** In one piece: answered at once. */
  lemma PlainInOne(r: Request, header: Option<int>, rc: int)
    requires PlainRequest(r) && Declares(header, r.length)
    ensures var calls := [Call(r.bytes, [RequestLine(r.verb), HeadersComplete(header)], true, rc)];
            Pieces(r, calls) && Fed(calls).1 == Dispatched(SeenBy(r, |r.bytes|), rc)
  {
    hide Fed, HeadEndsAt, SeenBy;
    var events := [RequestLine(r.verb), HeadersComplete(header)];
    var calls := [Call(r.bytes, events, true, rc)];
    assert events[0].RequestLine? && events[1].HeadersComplete?;
    assert Total([]) == 0 && calls[..|calls| - 1] == [] && Total(calls) == |r.bytes| && r.bytes[0..|r.bytes|] == r.bytes;
    PlainSplit(r, calls);
  }

  // ----- the end of a connection ----------------------------------------------------------------

  /** An outcome with a response. */
  predicate Ends(out: Outcome) {
    out.TooLarge? || out.BadRequest? || (out.Dispatched? && out.rc == 1)
  }

  lemma EndsMeansDone(c: Conn, call: Call)
    ensures Ends(Step(c, call.data, call.events, call.built, call.rc).1) ==> Step(c, call.data, call.events, call.built, call.rc).0.done
  {}

  lemma {:induction false} DoneStays(calls: seq<Call>, k: nat)
    requires k <= |calls| && Fed(calls[..k]).0.done
    ensures Fed(calls).0.done && (k < |calls| ==> Fed(calls).1 == Refused)
    decreases |calls|
  {
    hide Step;
    if k == |calls| {
      assert calls[..k] == calls;
    } else {
      var init := calls[..|calls| - 1];
      assert init[..k] == calls[..k];
      DoneStays(init, k);
      DoneRefuses(Fed(init).0, calls[|calls| - 1]);
    }
  }

  /** Whatever the calls are, with or without an honest parser: after a response every
      further call is refused. */
  lemma AnswerIsLast(calls: seq<Call>, k: nat)
    requires 0 < k < |calls| && Ends(Fed(calls[..k]).1)
    ensures Fed(calls).1 == Refused
  {
    hide Step, Ends;
    var front := calls[..k];
    EndsMeansDone(Fed(front[..k - 1]).0, front[k - 1]);
    DoneStays(calls, k);
  }

  /** An error of the parser, wherever it stands among the events, is answered by 400, and
      bytes beyond the accumulator by 413, if the response can be built. */
  lemma FaultsAreAnswered(c: Conn, call: Call)
    requires !c.done && call.data != []
    ensures var out := Step(c, call.data, call.events, call.built, call.rc).1;
            && (|c.acc| + |call.data| > ACC_MAX ==> out == if call.built then TooLarge else Refused)
            && (|c.acc| + |call.data| <= ACC_MAX ==>
                  ((exists i :: 0 <= i < |call.events| && call.events[i].ParseError?)
                   <==> out == if call.built then BadRequest else Refused))
  {
    ErrorIsFound(c.(acc := c.acc + call.data), call.events);
    hide ApplyAll;
  }

  lemma {:induction false} ErrorIsFound(c: Conn, events: seq<Event>)
    ensures ApplyAll(c, events).1 <==> exists i :: 0 <= i < |events| && events[i].ParseError?
    decreases |events|
  {
    hide Apply;
    if events != [] && !events[0].ParseError? {
      ErrorIsFound(Apply(c, events[0]), events[1..]);
      assert forall i | 0 < i < |events| :: events[i] == events[1..][i - 1];
      if i :| 0 <= i < |events[1..]| && events[1..][i].ParseError? { assert events[i + 1].ParseError?; }
    }
  }

  /** PUT /a HTTP/1.1, Content-Length:1, a bare-LF blank line and the body "A". */
  function LoneByte(): seq<byte> {
    [80, 85, 84, 32, 47, 97, 32, 72, 84, 84, 80, 47, 49, 46, 49, 10,
     67, 111, 110, 116, 101, 110, 116, 45, 76, 101, 110, 103, 116, 104, 58, 49, 10, 10, 65]
  }

  /** A one-byte body behind a bare-LF blank line is never dispatched. */
  lemma LoneByteIsLost(rc: int)
    ensures var r := Request(LoneByte(), 34, 16, "PUT", 1);
            BodyRequest(r) && RequestBody(r) == [65]
            && Fed([Call(r.bytes, ParserEvents(r), true, rc)]).1 == Waiting
  {
    hide LoneByte, Fed;
    LoneByteShape();
    OnePiece(Request(LoneByte(), 34, 16, "PUT", 1), rc);
  }

  lemma LoneByteShape()
    ensures TextLineEnds(LoneByte(), 16)
    ensures |LoneByte()| == 35 && LoneByte()[32] == LF && LoneByte()[33] == LF && LoneByte()[34] == 65
    ensures forall j | 0 <= j < 32 :: LoneByte()[j] != CR && (LoneByte()[j] == LF ==> LoneByte()[j + 1] != LF)
  {}

  /** PUT /a HTTP/1.1, Content-Length: 5, both lines ended by LF, a CRLF blank line and the
      body "hello". */
  function MixedEnds(): seq<byte> {
    [80, 85, 84, 32, 47, 97, 32, 72, 84, 84, 80, 47, 49, 46, 49, 10,
     67, 111, 110, 116, 101, 110, 116, 45, 76, 101, 110, 103, 116, 104, 58, 32, 53, 10, 13, 10, 104, 101, 108, 108, 111]
  }

  /** A CRLF blank line behind lines ended by LF is never noticed. */
  lemma MixedEndsAreLost(rc: int)
    ensures var r := Request(MixedEnds(), 36, 16, "PUT", 5);
            BodyRequest(r) && RequestBody(r) == [104, 101, 108, 108, 111]
            && Fed([Call(r.bytes, ParserEvents(r), true, rc)]).1 == Waiting
  {
    hide MixedEnds, Fed;
    MixedEndsShape();
    OnePiece(Request(MixedEnds(), 36, 16, "PUT", 5), rc);
  }

  lemma MixedEndsShape()
    ensures TextLineEnds(MixedEnds(), 16)
    ensures |MixedEnds()| == 41 && MixedEnds()[32] != CR && MixedEnds()[36..] == [104, 101, 108, 108, 111]
    ensures MixedEnds()[33] == LF && MixedEnds()[34] == CR && MixedEnds()[35] == LF
    ensures forall j | 0 <= j < 33 :: MixedEnds()[j] != CR && (MixedEnds()[j] == LF ==> MixedEnds()[j + 1] != LF)
  {}

  /** PUT /a HTTP/1.1, ended by CRLF. */
  function PutLine(): seq<byte> {
    [80, 85, 84, 32, 47, 97, 32, 72, 84, 84, 80, 47, 49, 46, 49, 13, 10]
  }

  /** Content-Length: 5, an empty line and the body "hello". */
  function FieldAndBody(): seq<byte> {
    [67, 111, 110, 116, 101, 110, 116, 45, 76, 101, 110, 103, 116, 104, 58, 32, 53, 13, 10, 13, 10, 104, 101, 108, 108, 111]
  }

  /** Two empty lines in front of that request. */
  function LeadingLines(): seq<byte> {
    [13, 10, 13, 10] + (PutLine() + FieldAndBody())
  }

  /** Behind two empty lines its request line is handed out for its body. */
  lemma RequestLineIsTaken(rc: int)
    ensures var r := Request(LeadingLines(), 42, 21, "PUT", 5);
            Alone(r) && RequestBody(r) == [104, 101, 108, 108, 111]
            && Fed([Call(r.bytes, ParserEvents(r), true, rc)]).1 == Dispatched([80, 85, 84, 32, 47], rc)
  {
    hide LeadingLines, Fed;
    LeadingLinesShape();
    LeadingLinesAreTaken(Request(LeadingLines(), 42, 21, "PUT", 5), rc);
  }

  lemma LeadingLinesShape()
    ensures |LeadingLines()| == 47 && LeadingLines()[42..] == [104, 101, 108, 108, 111]
    ensures LeadingLines()[4..9] == [80, 85, 84, 32, 47] && CrLfBlank(LeadingLines(), 0)
    ensures TextLineEnds(LeadingLines(), 21) && CrLfBlank(LeadingLines(), 38)
    ensures forall j | 21 <= j < 38 :: LeadingLines()[j] != LF
  {
    var l, p, f := LeadingLines(), PutLine(), FieldAndBody();
    PutLineShape();
    FieldAndBodyShape();
    hide PutLine, FieldAndBody;
    assert forall j | 0 <= j < 17 :: l[4 + j] == p[j];
    assert forall j | 0 <= j < 26 :: l[21 + j] == f[j];
    assert l[4..9] == p[..5] && l[42..] == f[21..];
    assert forall j | 21 <= j < 38 :: l[j] == f[j - 21];
    assert f[17] == l[38] && f[18] == l[39] && f[19] == l[40] && f[20] == l[41];
    assert p[16] == l[20] && p[15] == l[19] && p[14] == l[18];
  }

  lemma PutLineShape()
    ensures |PutLine()| == 17 && PutLine()[..5] == [80, 85, 84, 32, 47] && PutLine()[14..] == [49, 13, 10]
  {}

  lemma FieldAndBodyShape()
    ensures |FieldAndBody()| == 26 && FieldAndBody()[21..] == [104, 101, 108, 108, 111] && CrLfBlank(FieldAndBody(), 17)
    ensures forall j | 0 <= j < 17 :: FieldAndBody()[j] != LF
  {}

  lemma TotalBound(r: Request, calls: seq<Call>)
    requires Pieces(r, calls)
    ensures Total(calls) <= |r.bytes|
  {}
}
