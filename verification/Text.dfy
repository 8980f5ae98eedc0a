/** C strings. A `char *` into a string is modelled by the text it points at, so a
    search returns the rest of the string from the match on and `p++` drops the first
    character; the terminating NUL is the end of the sequence. */
module Text {

  datatype Option<+T> = None | Some(value: T)

  type byte = b: int | 0 <= b < 256

  const QUOTE := '\"'

  /** What a NUL-terminated reader sees of a buffer. */
  function UpToNul(s: string): (t: string)
    ensures t <= s && '\0' !in t
    ensures t == s || s[|t|] == '\0'
  {
    if s == [] || s[0] == '\0' then [] else [s[0]] + UpToNul(s[1..])
  }

  /** What snprintf leaves in a buffer of `cap` bytes. */
  function Clip(s: string, cap: nat): (r: string)
    requires cap > 0
    ensures |r| < cap && r <= s && (|s| < cap ==> r == s)
  {
    if |s| < cap then s else s[..cap - 1]
  }

  /** strchr */
  function StrChr(s: string, c: char): (r: Option<string>)
    ensures r.Some? ==> r.value != [] && r.value[0] == c && |r.value| <= |s|
    ensures r.Some? ==> s[|s| - |r.value|..] == r.value && c !in s[..|s| - |r.value|]
    ensures r.None? ==> c !in s
  {
    if s == [] then None
    else if s[0] == c then Some(s)
    else StrChr(s[1..], c)
  }

  /** strstr */
  function StrStr(s: string, pat: string): (r: Option<string>)
    ensures r.Some? ==> pat <= r.value && |r.value| <= |s| && s[|s| - |r.value|..] == r.value
  {
    if pat <= s then Some(s)
    else if s == [] then None
    else StrStr(s[1..], pat)
  }

  function Quoted(name: string): string {
    "\"" + name + "\""
  }

  lemma {:induction false} StrChrSkip(pre: string, s: string, c: char)
    requires c !in pre
    ensures StrChr(pre + s, c) == StrChr(s, c)
  {
    if pre == [] {
      assert pre + s == s;
    } else {
      assert (pre + s)[1..] == pre[1..] + s;
      StrChrSkip(pre[1..], s, c);
    }
  }

  lemma StrChrHere(s: string)
    requires s != []
    ensures StrChr(s, s[0]) == Some(s)
  {}

  lemma {:induction false} StrStrSkip(pre: string, s: string, pat: string)
    requires pat != [] && pat[0] !in pre
    ensures StrStr(pre + s, pat) == StrStr(s, pat)
  {
    if pre == [] {
      assert pre + s == s;
    } else {
      assert (pre + s)[1..] == pre[1..] + s;
      StrStrSkip(pre[1..], s, pat);
    }
  }

  /** The text whose quote characters are exactly those that follow each segment. */
  function Cut(segs: seq<string>, tail: string): string {
    if segs == [] then tail else segs[0] + ("\"" + Cut(segs[1..], tail))
  }

  ghost predicate QuoteFree(segs: seq<string>) {
    forall i | 0 <= i < |segs| :: QUOTE !in segs[i]
  }

  lemma {:induction false} CutAppend(a: seq<string>, b: seq<string>, tail: string)
    ensures Cut(a + b, tail) == Cut(a, Cut(b, tail))
  {
    if a == [] {
      assert a + b == b;
    } else {
      assert (a + b)[1..] == a[1..] + b;
      CutAppend(a[1..], b, tail);
    }
  }

  /** The search for a quoted name does not match a different segment. */
  lemma SegmentMismatch(seg: string, after: string, name: string)
    requires QUOTE !in seg && QUOTE !in name && seg != name
    ensures !(Quoted(name) <= "\"" + (seg + ("\"" + after)))
  {
    var s := "\"" + (seg + ("\"" + after));
    var pat := Quoted(name);
    assert |s| >= |seg| + 2;
    assert forall i | 0 <= i < |seg| :: s[1 + i] == seg[i];
    assert s[1 + |seg|] == QUOTE;
    assert forall i | 0 <= i < |name| :: pat[1 + i] == name[i];
    assert pat[1 + |name|] == QUOTE;
    assert |seg| == |name| ==> exists i :: 0 <= i < |seg| && seg[i] != name[i];
  }

  lemma StrStrStep(s: string, pat: string)
    requires s != [] && !(pat <= s)
    ensures StrStr(s, pat) == StrStr(s[1..], pat)
  {}

  lemma {:induction false} FindFromQuote(segs: seq<string>, name: string, rest: string)
    requires QUOTE !in name && QuoteFree(segs) && name !in segs
    ensures StrStr("\"" + Cut(segs, name + ("\"" + rest)), Quoted(name)) == Some(Quoted(name) + rest)
  {
    var tail := name + ("\"" + rest);
    var s := "\"" + Cut(segs, tail);
    if segs == [] {
      assert s == Quoted(name) + rest;
    } else {
      var seg, after := segs[0], Cut(segs[1..], tail);
      SegmentMismatch(seg, after, name);
      StrStrStep(s, Quoted(name));
      assert s[1..] == seg + ("\"" + after);
      StrStrSkip(seg, "\"" + after, Quoted(name));
      FindFromQuote(segs[1..], name, rest);
    }
  }

  /** The search for a quoted name stops at the first segment, after the leading one,
      that equals the name. */
  lemma FindSegment(front: string, segs: seq<string>, name: string, rest: string)
    requires QUOTE !in front && QUOTE !in name && QuoteFree(segs) && name !in segs
    ensures StrStr(Cut([front] + segs, name + ("\"" + rest)), Quoted(name)) == Some(Quoted(name) + rest)
  {
    var tail := name + ("\"" + rest);
    assert ([front] + segs)[1..] == segs;
    StrStrSkip(front, "\"" + Cut(segs, tail), Quoted(name));
    FindFromQuote(segs, name, rest);
  }

  lemma CutOne(a: string, segs: seq<string>, tail: string)
    ensures Cut([a] + segs, tail) == a + ("\"" + Cut(segs, tail))
  {
    assert ([a] + segs)[1..] == segs;
  }

  lemma CutAt(segs: seq<string>, i: nat, tail: string)
    requires i < |segs|
    ensures Cut(segs[i..], tail) == segs[i] + ("\"" + Cut(segs[i + 1..], tail))
  {
    assert segs[i..][1..] == segs[i + 1..];
  }

  ghost predicate FirstSeg(segs: seq<string>, i: nat, name: string) {
    1 <= i < |segs| && segs[i] == name && forall j | 1 <= j < i :: segs[j] != name
  }

  /** Searching a cut text for a quoted name. */
  lemma FindFirstSeg(segs: seq<string>, i: nat, name: string, tail: string)
    requires QuoteFree(segs) && FirstSeg(segs, i, name)
    ensures StrStr(Cut(segs, tail), Quoted(name)) == Some(Quoted(name) + Cut(segs[i + 1..], tail))
  {
    var rest := Cut(segs[i + 1..], tail);
    CutAt(segs, i, tail);
    CutAppend(segs[..i], segs[i..], tail);
    assert segs == segs[..i] + segs[i..];
    assert segs[..i] == [segs[0]] + segs[1..i];
    FindSegment(segs[0], segs[1..i], name, rest);
  }

  ghost predicate OccursAt(s: string, pat: string, i: int) {
    0 <= i && i + |pat| <= |s| && s[i..i + |pat|] == pat
  }

  lemma OccursLater(s: string, pat: string, i: int)
    requires s != "" && !(pat <= s)
    ensures OccursAt(s, pat, i + 1) <==> OccursAt(s[1..], pat, i)
  {
    if 0 <= i && i + |pat| < |s| { assert s[1..][i..i + |pat|] == s[i + 1..i + 1 + |pat|]; }
  }

  /** The search succeeds exactly when there is an occurrence. */
  lemma {:induction false} StrStrFinds(s: string, pat: string)
    ensures StrStr(s, pat).Some? <==> exists i :: OccursAt(s, pat, i)
  {
    if pat <= s {
      assert OccursAt(s, pat, 0);
    } else if s == "" {
      assert forall i :: !OccursAt(s, pat, i);
    } else {
      StrStrFinds(s[1..], pat);
      hide OccursAt;
      if i :| OccursAt(s[1..], pat, i) { OccursLater(s, pat, i); }
      if i :| OccursAt(s, pat, i) { OccursLater(s, pat, i - 1); }
    }
  }

  lemma NoQuoteNoHit(tail: string, name: string)
    requires QUOTE !in tail && QUOTE !in name
    ensures StrStr(tail, Quoted(name)) == None && StrStr("\"" + tail, Quoted(name)) == None
  {
    var s := "\"" + tail;
    StrStrSkip(tail, "", Quoted(name));
    assert tail + "" == tail;
    assert s[1..] == tail;
    assert Quoted(name)[1 + |name|] == QUOTE;
    assert forall i | 1 <= i < |s| :: s[i] == tail[i - 1];
  }

  lemma {:induction false} NoneFromQuote(segs: seq<string>, name: string, tail: string)
    requires QUOTE !in name && QUOTE !in tail && QuoteFree(segs) && name !in segs
    ensures StrStr("\"" + Cut(segs, tail), Quoted(name)) == None
  {
    if segs == [] {
      NoQuoteNoHit(tail, name);
    } else {
      var seg, after := segs[0], Cut(segs[1..], tail);
      var s := "\"" + Cut(segs, tail);
      SegmentMismatch(seg, after, name);
      StrStrStep(s, Quoted(name));
      assert s[1..] == seg + ("\"" + after);
      StrStrSkip(seg, "\"" + after, Quoted(name));
      NoneFromQuote(segs[1..], name, tail);
    }
  }

  /** The search fails if no segment behind the leading one equals the name. */
  lemma FindNoSegment(front: string, segs: seq<string>, name: string, tail: string)
    requires QUOTE !in front && QUOTE !in name && QUOTE !in tail && QuoteFree(segs) && name !in segs
    ensures StrStr(front + ("\"" + Cut(segs, tail)), Quoted(name)) == None
  {
    StrStrSkip(front, "\"" + Cut(segs, tail), Quoted(name));
    NoneFromQuote(segs, name, tail);
  }

  lemma FindSomeSegment(segs: seq<string>, name: string, tail: string)
    requires segs != [] && QuoteFree(segs) && name in segs[1..]
    ensures StrStr(Cut(segs, tail), Quoted(name)).Some?
  {
    var i := 1;
    while segs[i] != name
      invariant 1 <= i < |segs| && name in segs[i..] && forall j | 1 <= j < i :: segs[j] != name
      decreases |segs| - i
    {
      assert segs[i..] == [segs[i]] + segs[i + 1..];
      i := i + 1;
    }
    FindFirstSeg(segs, i, name, tail);
  }

  // ----- lists with a separator ---------------------------------------------------------

  /** The text from the first `c` on. */
  function FromChar(s: string, c: char): (r: string)
    ensures |r| <= |s| && s[|s| - |r|..] == r && (r == "" || r[0] == c)
    ensures c !in s[..|s| - |r|]
  {
    if s == "" || s[0] == c then s else FromChar(s[1..], c)
  }

  function FirstPiece(s: string, c: char): (f: string)
    ensures f + FromChar(s, c) == s && c !in f
  {
    s[..|s| - |FromChar(s, c)|]
  }

  lemma {:induction false} PieceAhead(f: string, c: char, rest: string)
    requires c !in f && (rest == "" || rest[0] == c)
    ensures FromChar(f + rest, c) == rest && FirstPiece(f + rest, c) == f
  {
    if f == "" {
      assert f + rest == rest;
    } else {
      assert (f + rest)[1..] == f[1..] + rest;
      PieceAhead(f[1..], c, rest);
    }
    assert (f + rest)[..|f|] == f;
  }

  lemma FromCharStep(s: string, c: char)
    requires s != "" && s[0] != c
    ensures FromChar(s, c) == FromChar(s[1..], c)
  {}

  /** The first piece without its first character. */
  lemma PieceStep(s: string, c: char)
    requires s != "" && s[0] != c
    ensures FromChar(s, c) == FromChar(s[1..], c) && FirstPiece(s, c) == [s[0]] + FirstPiece(s[1..], c)
  {
    hide FromChar, FirstPiece;
    FromCharStep(s, c);
    var rest, piece := FromChar(s, c), [s[0]] + FirstPiece(s[1..], c);
    assert piece + rest == [s[0]] + s[1..] == s;
    assert FirstPiece(s, c) == s[..|s| - |rest|] == piece;
  }

  /** The pieces with a separator between them. */
  function Separated(pieces: seq<string>, c: char): string {
    if pieces == [] then ""
    else if |pieces| == 1 then pieces[0]
    else pieces[0] + ([c] + Separated(pieces[1..], c))
  }

  lemma {:induction false} SeparatedSnoc(pieces: seq<string>, x: string, c: char)
    ensures Separated(pieces + [x], c) == if pieces == [] then x else Separated(pieces, c) + [c] + x
  {
    if |pieces| == 1 {
      assert (pieces + [x])[1..] == [x];
    } else if pieces != [] {
      assert (pieces + [x])[1..] == pieces[1..] + [x];
      SeparatedSnoc(pieces[1..], x, c);
    }
  }

  // ----- positions in a history -------------------------------------------------------

  ghost predicate Increasing(s: seq<nat>, bound: nat) {
    && (forall i, j | 0 <= i < j < |s| :: s[i] < s[j])
    && (forall i | 0 <= i < |s| :: s[i] < bound)
  }

  lemma {:induction false} IncreasingBound(s: seq<nat>, n: nat)
    requires Increasing(s, n)
    ensures |s| <= n
  {
    if s != [] {
      var last := |s| - 1;
      IncreasingBound(s[..last], s[last]);
    }
  }

  // ----- counting flags ---------------------------------------------------------------

  function CountTrue(s: seq<bool>): nat {
    if s == [] then 0 else CountTrue(s[..|s| - 1]) + if s[|s| - 1] then 1 else 0
  }

  lemma {:induction false} CountUpdate(s: seq<bool>, i: nat, b: bool)
    requires i < |s|
    ensures CountTrue(s[i := b]) == CountTrue(s) + (if b then 1 else 0) - (if s[i] then 1 else 0)
  {
    var n := |s| - 1;
    if i == n {
      assert s[i := b][..n] == s[..n];
    } else {
      assert s[i := b][..n] == s[..n][i := b];
      CountUpdate(s[..n], i, b);
    }
  }

  lemma {:induction false} CountAll(s: seq<bool>)
    ensures CountTrue(s) <= |s|
    ensures CountTrue(s) == |s| <==> forall i | 0 <= i < |s| :: s[i]
    ensures CountTrue(s) == 0 <==> forall i | 0 <= i < |s| :: !s[i]
  {
    if s != [] { CountAll(s[..|s| - 1]); }
  }

  // ----- characters and bytes -----------------------------------------------------------

  /** A C character is one byte. */
  predicate OneByteChars(s: string) {
    forall i | 0 <= i < |s| :: s[i] as int < 256
  }

  function ToBytes(s: string): (b: seq<byte>)
    requires OneByteChars(s)
    ensures |b| == |s|
  {
    seq(|s|, i requires 0 <= i < |s| => s[i] as int)
  }

  function FromBytes(b: seq<byte>): (s: string)
    ensures |s| == |b| && OneByteChars(s)
  {
    seq(|b|, i requires 0 <= i < |b| => b[i] as char)
  }

  lemma BytesRoundTrip(s: string)
    requires OneByteChars(s)
    ensures FromBytes(ToBytes(s)) == s
  {}

  // ----- division -----------------------------------------------------------------------

  lemma Remainder(v: int, q: int, m: int, r: int)
    requires 0 <= r < m && v == q * m + r
    ensures v / m == q && v % m == r
  {
    var d := v / m - q;
    assert d * m == r - v % m;
    assert -m < d * m < m;
  }

  lemma ModSum(a: nat, b: nat, m: nat)
    requires m > 0
    ensures (a % m + b) % m == (a + b) % m
  {
    var q, r := (a % m + b) / m, (a % m + b) % m;
    Remainder(a + b, a / m + q, m, r) by { assert a + b == (a / m + q) * m + r; }
  }

  lemma EmptyCut(t: string)
    ensures Cut([], t) == t
  {}
}
