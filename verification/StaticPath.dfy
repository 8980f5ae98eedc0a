/** src/host/static_files.c, edge_static_resolve: from a URL path to a file below a root. */
module StaticPath {
  import opened Text

  const REL_BUF: nat := 512
  const INDEX := "index.html"

  // ----- what a path means ----------------------------------------------------------------

  /** The path before the query and the fragment. */
  function BeforeQuery(url: string): (p: string)
    ensures p <= url && '?' !in p && '#' !in p
    ensures p == url || url[|p|] == '?' || url[|p|] == '#'
  {
    if url == "" || url[0] == '?' || url[0] == '#' then "" else [url[0]] + BeforeQuery(url[1..])
  }

  /** The non-empty components. */
  function Parts(p: string): seq<string>
    decreases |p|
  {
    if p == "" then []
    else
      var f, rest := FirstPiece(p, '/'), FromChar(p, '/');
      (if f == "" then [] else [f]) + (if rest == "" then [] else Parts(rest[1..]))
  }

  /** The components to serve: the default document if there are none. */
  function Wanted(p: string): seq<string> {
    if Parts(p) == [] then [INDEX] else Parts(p)
  }

  predicate BadChar(c: char) {
    c as int < 0x20 || c == '\\' || c as int == 0x7f
  }

  predicate Bad(part: string) {
    part == "." || part == ".." || exists k | 0 <= k < |part| :: BadChar(part[k])
  }

  ghost predicate AllGood(parts: seq<string>) {
    forall i | 0 <= i < |parts| :: !Bad(parts[i])
  }

  function Below(root: string, rel: string): string
    requires root != ""
  {
    root + (if root[|root| - 1] == '/' then "" else "/") + rel
  }

  /** It fails exactly on an unusable root or buffer, a path of 512 characters or more, a
      bad component, or a result that might not fit. */
  ghost function ResolveSpec(root: string, url: string, outSz: nat): Option<string> {
    var path := BeforeQuery(url);
    var rel := Separated(Wanted(path), '/');
    if root == "" || outSz < 4 || |path| >= REL_BUF then None
    else if !AllGood(Wanted(path)) || |root| + 1 + |rel| + 1 > outSz then None
    else Some(Below(root, rel))
  }

  // ----- components and separators --------------------------------------------------------

  /** A usable list of components: none is empty or holds a slash. */
  ghost predicate Components(parts: seq<string>) {
    forall i | 0 <= i < |parts| :: parts[i] != "" && '/' !in parts[i]
  }

  function FirstPart(p: string): seq<string> {
    if FirstPiece(p, '/') == "" then [] else [FirstPiece(p, '/')]
  }

  function OtherParts(p: string): seq<string> {
    if FromChar(p, '/') == "" then [] else Parts(FromChar(p, '/')[1..])
  }

  lemma PartsSplit(p: string)
    ensures Parts(p) == FirstPart(p) + OtherParts(p)
  {}

  lemma {:induction false} PartsAreComponents(p: string)
    ensures Components(Parts(p))
    decreases |p|
  {
    hide FirstPiece, FromChar, Parts;
    PartsSplit(p);
    if FromChar(p, '/') != "" { PartsAreComponents(FromChar(p, '/')[1..]); }
  }

  lemma {:induction false} PartsAvoid(p: string, c: char)
    requires c !in p
    ensures forall i | 0 <= i < |Parts(p)| :: c !in Parts(p)[i]
    decreases |p|
  {
    hide FirstPiece, FromChar, Parts;
    PartsSplit(p);
    assert FirstPiece(p, '/') <= p;
    if FromChar(p, '/') != "" { PartsAvoid(FromChar(p, '/')[1..], c); }
  }

  lemma {:induction false} LeadingSlash(p: string)
    requires p != "" && p[0] == '/'
    ensures Parts(p) == Parts(p[1..])
  {
    assert FromChar(p, '/') == p && FirstPiece(p, '/') == "";
  }

  lemma OnePart(f: string, rest: string)
    requires f != "" && '/' !in f && (rest == "" || rest[0] == '/')
    ensures Parts(f + rest) == [f] + if rest == "" then [] else Parts(rest[1..])
  {
    PieceAhead(f, '/', rest);
  }

  function Slashes(n: nat): (s: string)
    ensures |s| == n && forall i | 0 <= i < n :: s[i] == '/'
  {
    seq(n, _ => '/')
  }

  /** A path that spells the components with runs of slashes in front of each and behind
      the last. */
  function Spelled(parts: seq<string>, gaps: seq<nat>): string
    requires |gaps| == |parts| + 1
  {
    if parts == [] then Slashes(gaps[0])
    else Slashes(gaps[0]) + (parts[0] + Spelled(parts[1..], gaps[1..]))
  }

  lemma {:induction false} DropSlashes(n: nat, p: string)
    ensures Parts(Slashes(n) + p) == Parts(p)
  {
    if n == 0 {
      assert Slashes(0) + p == p;
    } else {
      assert (Slashes(n) + p)[1..] == Slashes(n - 1) + p;
      LeadingSlash(Slashes(n) + p);
      DropSlashes(n - 1, p);
    }
  }

  /** However many slashes stand around them, the components come back. */
  lemma {:induction false} PartsOfSpelled(parts: seq<string>, gaps: seq<nat>)
    requires |gaps| == |parts| + 1 && Components(parts)
    requires forall i | 1 <= i < |parts| :: gaps[i] > 0
    ensures Parts(Spelled(parts, gaps)) == parts
  {
    hide Parts, Slashes;
    NoParts();
    if parts == [] {
      DropSlashes(gaps[0], "");
      assert Slashes(gaps[0]) + "" == Slashes(gaps[0]);
    } else {
      var f, rest := parts[0], Spelled(parts[1..], gaps[1..]);
      DropSlashes(gaps[0], f + rest);
      PartsOfSpelled(parts[1..], gaps[1..]);
      OnePart(f, rest);
      if rest != "" { LeadingSlash(rest); }
      assert [f] + parts[1..] == parts;
    }
  }

  lemma NoParts()
    ensures Parts("") == []
  {}

  lemma {:induction false} PartsOfSeparated(parts: seq<string>)
    requires Components(parts)
    ensures Parts(Separated(parts, '/')) == parts
  {
    hide Parts;
    NoParts();
    if parts == [] {
    } else if |parts| == 1 {
      OnePart(parts[0], "");
      assert parts[0] + "" == parts[0];
    } else {
      var more := Separated(parts[1..], '/');
      PartsOfSeparated(parts[1..]);
      OnePart(parts[0], ['/'] + more);
      assert (['/'] + more)[1..] == more;
      assert [parts[0]] + parts[1..] == parts;
    }
  }

  // ----- the result ------------------------------------------------------------------------

  /** A resolved path is the root, one slash and good components, so it names nothing
      outside the root. */
  lemma StaysBelow(root: string, url: string, outSz: nat)
    requires ResolveSpec(root, url, outSz).Some?
    ensures exists parts :: parts != [] && Components(parts) && AllGood(parts)
                            && ResolveSpec(root, url, outSz) == Some(Below(root, Separated(parts, '/')))
  {
    WantedParts(url);
    assert Components(Wanted(BeforeQuery(url)));
  }

  lemma IndexIsGood()
    ensures Components([INDEX]) && !Bad(INDEX) && '?' !in INDEX && '#' !in INDEX && |INDEX| == 10
  {
    var s := INDEX;
    assert s[0] == 'i' && s[1] == 'n' && s[2] == 'd' && s[3] == 'e' && s[4] == 'x';
    assert s[5] == '.' && s[6] == 'h' && s[7] == 't' && s[8] == 'm' && s[9] == 'l';
  }

  lemma WantedParts(url: string)
    ensures Components(Wanted(BeforeQuery(url)))
    ensures forall i | 0 <= i < |Wanted(BeforeQuery(url))| :: '?' !in Wanted(BeforeQuery(url))[i] && '#' !in Wanted(BeforeQuery(url))[i]
  {
    hide Parts, Bad;
    IndexIsGood();
    PartsAreComponents(BeforeQuery(url));
    PartsAvoid(BeforeQuery(url), '?');
    PartsAvoid(BeforeQuery(url), '#');
  }

  lemma {:induction false} SeparatedClean(parts: seq<string>)
    requires forall i | 0 <= i < |parts| :: '?' !in parts[i] && '#' !in parts[i]
    ensures '?' !in Separated(parts, '/') && '#' !in Separated(parts, '/')
  {
    if parts != [] { SeparatedClean(parts[1..]); }
  }

  lemma SeparatedLength(first: seq<string>, more: seq<string>)
    requires |first| <= 1
    ensures |Separated(first + more, '/')|
         <= (if first == [] then 0 else |first[0]|) + (if more == [] then 0 else |Separated(more, '/')| + 1)
  {
    if first != [] { assert (first + more)[1..] == more; } else { assert first + more == more; }
  }

  lemma {:induction false} PartsLength(p: string)
    ensures |Separated(Parts(p), '/')| <= |p|
    decreases |p|
  {
    hide FirstPiece, FromChar, Parts, Separated;
    PartsSplit(p);
    SeparatedLength(FirstPart(p), OtherParts(p));
    assert |FirstPiece(p, '/')| + |FromChar(p, '/')| == |p|;
    if FromChar(p, '/') != "" { PartsLength(FromChar(p, '/')[1..]); }
  }

  lemma NothingCut(url: string)
    requires '?' !in url && '#' !in url
    ensures BeforeQuery(url) == url
  {}

  // ----- what that means for the text -------------------------------------------------------

  /** p[i..j] is what stands between two slashes, or between a slash and an end. */
  predicate PieceAt(p: string, i: nat, j: nat) {
    && i <= j <= |p| && (i == 0 || p[i - 1] == '/') && (j == |p| || p[j] == '/')
    && forall k | i <= k < j :: p[k] != '/'
  }

  /** A name that can be served: not a directory itself or its parent, and printable. */
  predicate Clean(name: string) {
    && name != "" && name != "." && name != ".."
    && forall k | 0 <= k < |name| :: name[k] as int >= 0x20 && name[k] as int != 0x7f && name[k] != '\\' && name[k] != '/'
  }

  ghost predicate CleanPieces(rel: string) {
    forall i: nat, j: nat | PieceAt(rel, i, j) :: Clean(rel[i..j])
  }

  lemma BadIff(part: string)
    requires part != "" && '/' !in part
    ensures Bad(part) <==> !Clean(part)
  {
    assert forall k | 0 <= k < |part| :: part[k] in part;
  }

  /** All pieces, the empty ones too. */
  function Pieces(p: string): (ps: seq<string>)
    ensures ps != []
    decreases |p|
  {
    [FirstPiece(p, '/')] + if FromChar(p, '/') == "" then [] else Pieces(FromChar(p, '/')[1..])
  }

  lemma FirstSlash(p: string)
    ensures var n := |FirstPiece(p, '/')|;
            && n + |FromChar(p, '/')| == |p| && (forall k | 0 <= k < n :: p[k] != '/')
            && FirstPiece(p, '/') == p[..n] && FromChar(p, '/') == p[n..] && (n < |p| ==> p[n] == '/')
  {
    var f := FirstPiece(p, '/');
    assert p == f + FromChar(p, '/');
    assert forall k | 0 <= k < |f| :: p[k] == f[k] && f[k] in f;
  }

  /** The first piece ends at `n`. */
  lemma FirstEnds(p: string) returns (n: nat)
    ensures n <= |p| && PieceAt(p, 0, n) && (n < |p| ==> p[n] == '/')
    ensures Pieces(p) == [p[..n]] + if n == |p| then [] else Pieces(p[n + 1..])
  {
    hide FirstPiece, FromChar;
    FirstSlash(p);
    n := |FirstPiece(p, '/')|;
    if n < |p| { assert p[n..][1..] == p[n + 1..]; }
  }

  /** Behind a slash the pieces are those of the rest. */
  lemma Behind(p: string, n: nat, i: nat, j: nat)
    requires n < |p| && p[n] == '/'
    ensures PieceAt(p[n + 1..], i, j) <==> PieceAt(p, n + 1 + i, n + 1 + j)
    ensures i <= j <= |p| - n - 1 ==> p[n + 1..][i..j] == p[n + 1 + i..n + 1 + j]
  {
    var rest := p[n + 1..];
    assert forall k | 0 <= k < |rest| :: rest[k] == p[n + 1 + k];
    if PieceAt(rest, i, j) {
      assert forall k | n + 1 + i <= k < n + 1 + j :: p[k] == rest[k - n - 1];
    }
  }

  lemma FirstIsFirst(p: string, n: nat, i: nat, j: nat)
    requires PieceAt(p, 0, n) && PieceAt(p, i, j)
    ensures i == 0 ==> j == n
    ensures i > 0 ==> n < i
  {}

  /** Where the pieces stand. */
  lemma {:induction false} PieceIsListed(p: string, i: nat, j: nat)
    requires PieceAt(p, i, j)
    ensures p[i..j] in Pieces(p)
    decreases |p|
  {
    hide PieceAt, Pieces;
    var n := FirstEnds(p);
    FirstIsFirst(p, n, i, j);
    PieceIn(p, i, j);
    if i == 0 {
      PieceMember(p, n, p[i..j]);
    } else {
      var k, l := i - n - 1, j - n - 1;
      Behind(p, n, k, l);
      PieceIsListed(p[n + 1..], k, l);
      PieceMember(p, n, p[i..j]);
    }
  }

  lemma PieceMember(p: string, n: nat, x: string)
    requires n <= |p| && Pieces(p) == [p[..n]] + if n == |p| then [] else Pieces(p[n + 1..])
    ensures x in Pieces(p) <==> x == p[..n] || (n < |p| && x in Pieces(p[n + 1..]))
  {
    hide Pieces;
  }

  lemma PieceIn(p: string, i: nat, j: nat)
    requires PieceAt(p, i, j)
    ensures i <= j <= |p|
  {}

  lemma {:induction false} ListedIsPiece(p: string, x: string) returns (i: nat, j: nat)
    requires x in Pieces(p)
    ensures PieceAt(p, i, j) && p[i..j] == x
    decreases |p|
  {
    hide PieceAt, Pieces;
    var n := FirstEnds(p);
    if x == p[..n] {
      i, j := 0, n;
      assert p[0..n] == p[..n];
    } else {
      var k, l := ListedIsPiece(p[n + 1..], x);
      PieceIn(p[n + 1..], k, l);
      Behind(p, n, k, l);
      i, j := n + 1 + k, n + 1 + l;
    }
  }

  /** The components are the pieces that are not empty. */
  lemma {:induction false} PartsArePieces(p: string, x: string)
    ensures x in Parts(p) <==> x != "" && x in Pieces(p)
    decreases |p|
  {
    hide FirstPiece, FromChar, Parts;
    PartsSplit(p);
    if FromChar(p, '/') != "" { PartsArePieces(FromChar(p, '/')[1..], x); }
  }

  lemma {:induction false} PiecesOfSeparated(parts: seq<string>)
    requires parts != [] && Components(parts)
    ensures Pieces(Separated(parts, '/')) == parts
  {
    hide FirstPiece, FromChar;
    if |parts| == 1 {
      PieceAhead(parts[0], '/', "");
      assert parts[0] + "" == parts[0];
    } else {
      var more := Separated(parts[1..], '/');
      PiecesOfSeparated(parts[1..]);
      PieceAhead(parts[0], '/', ['/'] + more);
      assert (['/'] + more)[1..] == more;
      assert [parts[0]] + parts[1..] == parts;
    }
  }

  /** The result is the root, one slash and a text whose pieces are all clean. */
  ghost predicate BelowRoot(root: string, r: string) {
    root != "" && exists rel :: CleanPieces(rel) && r == (if root[|root| - 1] == '/' then root + rel else root + "/" + rel)
  }

  lemma ResultIsBelow(root: string, url: string, outSz: nat)
    requires ResolveSpec(root, url, outSz).Some?
    ensures BelowRoot(root, ResolveSpec(root, url, outSz).value)
  {
    hide Bad, Clean, Separated, Pieces, Parts;
    var parts := Wanted(BeforeQuery(url));
    var rel := Separated(parts, '/');
    WantedParts(url);
    PiecesOfSeparated(parts);
    forall i: nat, j: nat | PieceAt(rel, i, j) ensures Clean(rel[i..j]) {
      PieceIsListed(rel, i, j);
      var k :| 0 <= k < |parts| && parts[k] == rel[i..j];
      BadIff(parts[k]);
    }
    assert root + "" + rel == root + rel;
  }

  /** A piece that is a dot name or holds a control character or a backslash is refused,
      wherever it stands in front of the query. */
  lemma DirtyIsRefused(root: string, url: string, outSz: nat, n: nat, i: nat, j: nat)
    requires n <= |url| && '?' !in url[..n] && '#' !in url[..n] && (n == |url| || url[n] == '?' || url[n] == '#')
    requires PieceAt(url[..n], i, j) && i < j && !Clean(url[..n][i..j])
    ensures ResolveSpec(root, url, outSz) == None
  {
    hide Bad, Clean, Separated, Pieces, Parts;
    var p, x := url[..n], url[..n][i..j];
    CutPoint(url, n);
    PieceIsListed(p, i, j);
    PartsArePieces(p, x);
    BadIff(x);
  }

  /** Conversely, below the length limits, only such a piece is refused. */
  lemma RefusedIsDirty(root: string, url: string, outSz: nat)
    requires root != "" && outSz >= 4 && |BeforeQuery(url)| < REL_BUF
    requires ResolveSpec(root, url, outSz).None? && |root| + |BeforeQuery(url)| + 12 <= outSz
    ensures exists i: nat, j: nat :: PieceAt(BeforeQuery(url), i, j) && i < j && !Clean(BeforeQuery(url)[i..j])
  {
    hide Bad, Clean, Separated, Pieces, Parts, AllGood;
    var p := BeforeQuery(url);
    PartsLength(p);
    IndexIsGood();
    IndexAlone();
    PartsAreComponents(p);
    assert !AllGood(Wanted(p));
    var k := FindBad(Wanted(p));
    if Parts(p) == [] {
      assert false;
    } else {
      PartsArePieces(p, Parts(p)[k]);
      BadIff(Parts(p)[k]);
      var i, j := ListedIsPiece(p, Parts(p)[k]);
    }
  }

  lemma FindBad(parts: seq<string>) returns (k: nat)
    requires !AllGood(parts)
    ensures k < |parts| && Bad(parts[k])
  {
    k :| 0 <= k < |parts| && Bad(parts[k]);
  }

  /** What is asked for is what is served: clean names, with whatever slashes around them and
      whatever query behind, give the file of that name below the root, if the limits hold. */
  lemma ServesWhatIsAsked(root: string, names: seq<string>, gaps: seq<nat>, query: string, outSz: nat)
    requires root != "" && outSz >= 4 && names != [] && |gaps| == |names| + 1
    requires forall i | 0 <= i < |names| :: Clean(names[i]) && '?' !in names[i] && '#' !in names[i]
    requires forall i | 1 <= i < |names| :: gaps[i] > 0
    requires query == "" || query[0] == '?' || query[0] == '#'
    requires |Spelled(names, gaps)| < 512 && |root| + |Separated(names, '/')| + 2 <= outSz
    ensures ResolveSpec(root, Spelled(names, gaps) + query, outSz)
         == Some(root + (if root[|root| - 1] == '/' then "" else "/") + Separated(names, '/'))
  {
    hide Bad, Clean, Separated, Parts, Spelled;
    CleanAreComponents(names);
    PartsOfSpelled(names, gaps);
    SpelledClean(names, gaps);
    QueryCut(Spelled(names, gaps), query);
  }

  lemma CleanAreComponents(names: seq<string>)
    requires forall i | 0 <= i < |names| :: Clean(names[i])
    ensures Components(names) && AllGood(names)
  {
    hide Bad;
    forall i | 0 <= i < |names| ensures names[i] != "" && '/' !in names[i] && !Bad(names[i]) {
      assert Clean(names[i]);
      assert '/' !in names[i];
      BadIff(names[i]);
    }
  }

  lemma {:induction false} SpelledClean(names: seq<string>, gaps: seq<nat>)
    requires |gaps| == |names| + 1 && forall i | 0 <= i < |names| :: '?' !in names[i] && '#' !in names[i]
    ensures '?' !in Spelled(names, gaps) && '#' !in Spelled(names, gaps)
  {
    if names != [] { SpelledClean(names[1..], gaps[1..]); }
  }

  lemma QueryCut(path: string, query: string)
    requires '?' !in path && '#' !in path && (query == "" || query[0] == '?' || query[0] == '#')
    ensures BeforeQuery(path + query) == path
  {
    hide BeforeQuery;
    assert (path + query)[..|path|] == path;
    CutPoint(path + query, |path|);
  }

  /** No name at all asks for index.html. */
  lemma ServesIndex(root: string, n: nat, query: string, outSz: nat)
    requires root != "" && outSz >= 4 && n < 512 && |root| + 12 <= outSz
    requires query == "" || query[0] == '?' || query[0] == '#'
    ensures ResolveSpec(root, Slashes(n) + query, outSz)
         == Some(root + (if root[|root| - 1] == '/' then "" else "/") + "index.html")
  {
    hide Bad, Parts;
    NoParts();
    DropSlashes(n, "");
    assert Slashes(n) + "" == Slashes(n);
    QueryCut(Slashes(n), query);
    IndexIsGood();
    IndexAlone();
    OneGood(INDEX);
  }

  /** Opening a path name by name: a dot stays, two dots go up, where there is an up. */
  function Enter(dir: seq<string>, name: string): seq<string> {
    if name == "" || name == "." then dir
    else if name == ".." then (if dir == [] then dir else dir[..|dir| - 1])
    else dir + [name]
  }

  function Reach(dir: seq<string>, names: seq<string>): seq<string> {
    if names == [] then dir else Enter(Reach(dir, names[..|names| - 1]), names[|names| - 1])
  }

  /** Whatever directory the root is, opening the relative part of a result name by name
      never leaves it, not even on the way. */
  lemma {:induction false} NeverLeavesRoot(dir: seq<string>, rel: string, k: nat)
    requires CleanPieces(rel) && k <= |Pieces(rel)|
    ensures Reach(dir, Pieces(rel)[..k]) == dir + Pieces(rel)[..k]
  {
    hide Pieces;
    var names := Pieces(rel);
    if k == 0 {
      assert dir + names[..0] == dir;
    } else {
      NeverLeavesRoot(dir, rel, k - 1);
      assert names[..k][..k - 1] == names[..k - 1];
      assert names[k - 1] in names;
      var i, j := ListedIsPiece(rel, names[k - 1]);
      assert Clean(names[k - 1]);
      assert (dir + names[..k - 1]) + [names[k - 1]] == dir + names[..k];
    }
  }

  /** Resolving the relative part of a result gives the result again. */
  lemma ResolvesToItself(root: string, url: string, outSz: nat)
    requires ResolveSpec(root, url, outSz).Some?
    ensures var rel := Separated(Wanted(BeforeQuery(url)), '/');
            && ResolveSpec(root, url, outSz) == Some(Below(root, rel))
            && ResolveSpec(root, rel, outSz) == Some(Below(root, rel))
            && ResolveSpec(root, "/" + rel, outSz) == (if |rel| + 1 < REL_BUF then Some(Below(root, rel)) else None)
  {
    hide Bad, Separated, FromChar, FirstPiece;
    var parts := Wanted(BeforeQuery(url));
    var rel := Separated(parts, '/');
    WantedParts(url);
    IndexIsGood();
    SeparatedClean(parts);
    NothingCut(rel);
    NothingCut("/" + rel);
    PartsOfSeparated(parts);
    LeadingSlash("/" + rel);
    assert ("/" + rel)[1..] == rel;
    PartsLength(BeforeQuery(url));
    IndexAlone();
  }

  lemma IndexAlone()
    ensures Separated([INDEX], '/') == INDEX
  {}

  // ----- the code --------------------------------------------------------------------------

  /** The query and fragment cut of the code, which looks for both marks separately. */
  method CutQuery(url: string) returns (rel: string)
    ensures rel == BeforeQuery(url)
  {
    var q, h := StrChr(url, '?'), StrChr(url, '#');
    var n := |url|;
    if q.Some? && |url| - |q.value| < n { n := |url| - |q.value|; }
    if h.Some? && |url| - |h.value| < n { n := |url| - |h.value|; }
    rel := url[..n];
    CutPoint(url, n);
  }

  lemma CutPoint(url: string, n: nat)
    requires n <= |url| && '?' !in url[..n] && '#' !in url[..n]
    requires n == |url| || url[n] == '?' || url[n] == '#'
    ensures BeforeQuery(url) == url[..n]
  {
    hide BeforeQuery;
    var p := BeforeQuery(url);
    assert p == url[..|p|];
    assert forall i | 0 <= i < n :: url[i] == url[..n][i];
    assert forall i | 0 <= i < |p| :: url[i] == p[i];
    assert |p| == n;
  }

  method HasBadChar(part: string) returns (bad: bool)
    ensures bad <==> exists k | 0 <= k < |part| :: BadChar(part[k])
  {
    for k := 0 to |part|
      invariant forall j | 0 <= j < k :: !BadChar(part[j])
    {
      if part[k] as int < 0x20 || part[k] == '\\' || part[k] as int == 0x7f { return true; }
    }
    return false;
  }

  /** One component: where it ends and whether it may be served. */
  method ReadPart(p: string) returns (part: string, rest: string, bad: bool)
    ensures part == FirstPiece(p, '/') && rest == FromChar(p, '/')
    ensures bad <==> Bad(part)
  {
    hide FirstPiece, FromChar;
    part, rest := "", p;
    while rest != "" && rest[0] != '/'
      invariant p == part + rest && '/' !in part
      decreases |rest|
    {
      part, rest := part + [rest[0]], rest[1..];
    }
    PieceAhead(part, '/', rest);
    if (|part| == 1 && part[0] == '.') || (|part| == 2 && part[0] == '.' && part[1] == '.') {
      assert part == "." || part == "..";
      return part, rest, true;
    }
    bad := HasBadChar(part);
  }

  lemma GoodMore(a: seq<string>, b: seq<string>)
    ensures AllGood(a + b) <==> AllGood(a) && AllGood(b)
  {
    assert forall i | 0 <= i < |a| :: (a + b)[i] == a[i];
    assert forall i | 0 <= i < |b| :: (a + b)[|a| + i] == b[i];
  }

  /** The walk over the components; its own bounds checks never fail. */
  method Walk(start: string) returns (clean: Option<string>)
    requires |start| < REL_BUF
    ensures clean == if AllGood(Parts(start)) then Some(Separated(Parts(start), '/')) else None
  {
    hide FirstPiece, FromChar, Parts, Bad, Separated, AllGood;
    var p, text := start, "";
    ghost var done: seq<string> := [];
    assert [] + Parts(start) == Parts(start);
    GoodMore([], []);
    NothingYet();
    while p != ""
      invariant Parts(start) == done + Parts(p) && AllGood(done) && text == Separated(done, '/')
      invariant |text| + |p| <= |start| && (p != "" && text != "" ==> |text| + |p| + 1 <= |start|)
      invariant text == "" <==> done == []
      decreases |p|
    {
      PartsSplit(p);
      var part, rest, bad := ReadPart(p);
      assert |part| + |rest| == |p|;
      ghost var more := OtherParts(p);
      if part != "" {
        GoodMore(done, [part] + more);
        GoodMore([part], more);
        OneGood(part);
        if bad { return None; }
        SeparatedSnoc(done, part, '/');
        if |text| > 0 {
          if |text| + 1 >= REL_BUF { return None; }
          text := text + "/";
        }
        if |text| + |part| >= REL_BUF { return None; }
        text := text + part;
        GoodMore(done, [part]);
        assert done + ([part] + more) == (done + [part]) + more;
        done := done + [part];
      } else {
        assert [] + more == more;
      }
      p := if rest != "" then rest[1..] else "";
    }
    NothingYet();
    assert done + [] == done;
    clean := Some(text);
  }

  lemma OneGood(part: string)
    ensures AllGood([part]) <==> !Bad(part)
  {
    assert [part][0] == part;
  }

  lemma NothingYet()
    ensures AllGood([]) && Separated([], '/') == "" && Parts("") == []
  {}

  /** edge_static_resolve */
  method Resolve(root: string, url: string, outSz: nat) returns (r: Option<string>)
    ensures r == ResolveSpec(root, url, outSz)
    ensures r.Some? ==> BelowRoot(root, r.value)
  {
    hide Parts, BeforeQuery, AllGood, Separated, BelowRoot;
    if ResolveSpec(root, url, outSz).Some? { ResultIsBelow(root, url, outSz); }
    if root == "" || outSz < 4 { return None; }
    var path := CutQuery(url);
    if |path| >= REL_BUF { return None; }
    var p := path;
    while p != "" && p[0] == '/'
      invariant Parts(p) == Parts(path) && |p| <= |path|
      decreases |p|
    {
      LeadingSlash(p);
      p := p[1..];
    }
    if p == "" {
      p := INDEX;
      NothingYet();
    }
    StartsWithPart(p);
    var clean := Walk(p);
    if clean.None? { return None; }
    var rel := if clean.value == "" then INDEX else clean.value;
    if |root| + 1 + |rel| + 1 > outSz { return None; }
    r := Some(Below(root, rel));
  }

  /** What is walked has a component, and is the list of components wanted. */
  lemma StartsWithPart(p: string)
    requires p != "" && p[0] != '/'
    ensures Parts(p) != [] && Separated(Parts(p), '/') != ""
    ensures Parts(INDEX) == [INDEX] && |INDEX| == 10
  {
    hide Bad;
    IndexIsGood();
    OnePart(INDEX, "");
    assert INDEX + "" == INDEX;
    PartsSplit(p);
    assert FirstPiece(p, '/') != "";
  }
}
