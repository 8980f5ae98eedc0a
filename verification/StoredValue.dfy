/** src/host/notify_apply.c, extract_raw_value on any text a store may hold: which values
    it gives back as they were stored. */
module StoredValue {
  import opened Text
  import opened StateStore
  import opened JsonText
  import opened NotifyScan

  /** What may follow a value. */
  predicate Ends(foot: string) {
    foot != "" && EndsScalar(foot[0])
  }

  /** The value condition: it starts with neither a blank nor null, holds no NUL, and the
      scanner stops at the comma behind it. */
  predicate Survives(value: string) {
    && value != "" && '\0' !in value && !IsSpace(value[0]) && !("null" <= value)
    && SkipValue(value + ",") == ","
  }

  /** `a` is left of a text that ends in `f`, `b` is left of the same text ending in `g`:
      the scanner entered both endings or stopped at the same place in front of them. */
  ghost predicate SameStop(a: string, f: string, b: string, g: string) {
    (|a| < |f| <==> |b| < |g|) && (|a| >= |f| ==> |a| - |f| == |b| - |g|)
  }

  lemma Drop(v: string, f: string, n: nat)
    requires n <= |v|
    ensures (v + f)[n..] == v[n..] + f
  {}

  ghost predicate Suffix(e: string, p: string) {
    |e| <= |p| && p[|p| - |e|..] == e
  }

  lemma SuffixBehind(e: string, n: nat, p: string)
    requires n <= |p| && Suffix(e, p[n..])
    ensures Suffix(e, p)
  {}

  lemma BodyStep(p: string)
    requires p != "" && p[0] != QUOTE
    ensures SkipBody(p) == SkipBody(p[if p[0] == '\\' && |p| > 1 then 2 else 1..])
  {}

  lemma {:induction false} BodySuffix(p: string)
    ensures Suffix(SkipBody(p), p)
  {
    if p != "" && p[0] != QUOTE {
      BodyStep(p);
      var n := if p[0] == '\\' && |p| > 1 then 2 else 1;
      BodySuffix(p[n..]);
      SuffixBehind(SkipBody(p[n..]), n, p);
    }
  }

  lemma {:induction false} BodySameStop(v: string, f: string, g: string)
    requires Ends(f) && Ends(g)
    ensures SameStop(SkipBody(v + f), f, SkipBody(v + g), g)
  {
    if v != "" && v[0] == QUOTE {
      Drop(v, f, 1);
      Drop(v, g, 1);
    } else {
      BodyStep(v + f);
      BodyStep(v + g);
      hide SkipBody;
      if v == "" {
        assert v + f == f && v + g == g;
      } else if v == "\\" {
        assert (v + f)[2..] == f[1..] && (v + g)[2..] == g[1..];
      } else {
        var n := if v[0] == '\\' then 2 else 1;
        Drop(v, f, n);
        Drop(v, g, n);
        BodySameStop(v[n..], f, g);
      }
    }
  }

  /** What is left of a text longer than its ending. */
  lemma LeftOf(v: string, f: string, g: string, a: string, b: string)
    requires SameStop(a, f, b, g) && Suffix(a, v + f) && Suffix(b, v + g) && |a| >= |f|
    ensures |a| - |f| <= |v| && var n := |v| - (|a| - |f|); a == v[n..] + f && b == v[n..] + g
  {
    var n := |v| - (|a| - |f|);
    Drop(v, f, n);
    Drop(v, g, n);
  }

  lemma NestStep(p: string, open: char, close: char, depth: nat)
    requires p != "" && depth > 0
    ensures SkipNest(p, open, close, depth)
         == if p[0] == QUOTE then SkipNest(SkipBody(p[1..]), open, close, depth)
            else SkipNest(p[1..], open, close, if p[0] == open then depth + 1 else if p[0] == close then depth - 1 else depth)
  {}

  lemma NestSkips(p: string, open: char, close: char, depth: nat)
    ensures depth == 0 ==> SkipNest(p, open, close, depth) == p
    ensures |SkipNest(p, open, close, depth)| <= |p|
  {}

  lemma {:induction false} NestSameStop(v: string, f: string, g: string, open: char, close: char, depth: nat)
    requires Ends(f) && Ends(g) && BracketPair(open, close)
    ensures SameStop(SkipNest(v + f, open, close, depth), f, SkipNest(v + g, open, close, depth), g)
    decreases |v|, 0
  {
    hide SkipBody, SkipNest;
    NestSkips(v + f, open, close, depth);
    NestSkips(v + g, open, close, depth);
    if depth > 0 {
      NestStep(v + f, open, close, depth);
      NestStep(v + g, open, close, depth);
      if v == "" {
        assert v + f == f && v + g == g;
      } else {
        Drop(v, f, 1);
        Drop(v, g, 1);
        if v[0] == QUOTE {
          NestBehindBody(v[1..], f, g, open, close, depth);
        } else {
          NestSameStop(v[1..], f, g, open, close,
                       if v[0] == open then depth + 1 else if v[0] == close then depth - 1 else depth);
        }
      }
    }
  }

  lemma {:induction false} NestBehindBody(v: string, f: string, g: string, open: char, close: char, depth: nat)
    requires Ends(f) && Ends(g) && BracketPair(open, close)
    ensures SameStop(SkipNest(SkipBody(v + f), open, close, depth), f, SkipNest(SkipBody(v + g), open, close, depth), g)
    decreases |v|, 1
  {
    hide SkipBody, SkipNest;
    BodySameStop(v, f, g);
    BodySuffix(v + f);
    BodySuffix(v + g);
    var a, b := SkipBody(v + f), SkipBody(v + g);
    if |a| >= |f| {
      LeftOf(v, f, g, a, b);
      NestSameStop(v[|v| - (|a| - |f|)..], f, g, open, close, depth);
    }
  }

  lemma {:induction false} ScalarSameStop(v: string, f: string, g: string)
    requires Ends(f) && Ends(g)
    ensures SameStop(SkipScalar(v + f), f, SkipScalar(v + g), g)
  {
    if v == "" {
      assert v + f == f && v + g == g;
    } else if !EndsScalar(v[0]) {
      Drop(v, f, 1);
      Drop(v, g, 1);
      ScalarSameStop(v[1..], f, g);
    }
  }

  lemma {:induction false} NestSuffix(p: string, open: char, close: char, depth: nat)
    ensures Suffix(SkipNest(p, open, close, depth), p)
    decreases |p|
  {
    hide SkipBody, SkipNest;
    NestSkips(p, open, close, depth);
    if p != "" && depth > 0 {
      NestStep(p, open, close, depth);
      var rest := if p[0] == QUOTE then SkipBody(p[1..]) else p[1..];
      BodySuffix(p[1..]);
      SuffixBehind(rest, 1, p);
      var d := if p[0] == QUOTE then depth else if p[0] == open then depth + 1 else if p[0] == close then depth - 1 else depth;
      NestSuffix(rest, open, close, d);
      SuffixBehind(SkipNest(rest, open, close, d), |p| - |rest|, p);
    }
  }

  lemma {:induction false} ScalarSuffix(p: string)
    ensures Suffix(SkipScalar(p), p)
  {
    if p != "" && !EndsScalar(p[0]) {
      ScalarSuffix(p[1..]);
      SuffixBehind(SkipScalar(p[1..]), 1, p);
    }
  }

  /** A skip leaves an ending of the text. */
  lemma ValueSuffix(p: string)
    requires p != ""
    ensures Suffix(SkipValue(p), p)
  {
    hide SkipBody, SkipNest, SkipScalar, Suffix;
    NestSuffix(p[1..], '{', '}', 1);
    NestSuffix(p[1..], '[', ']', 1);
    BodySuffix(p[1..]);
    ScalarSuffix(p);
    if p[0] == '{' || p[0] == '[' || p[0] == QUOTE { SuffixBehind(SkipValue(p), 1, p); }
  }

  /** Where a skip over a value stops does not depend on what follows the value. */
  lemma StopsAlike(v: string, f: string, g: string)
    requires v != "" && Ends(f) && Ends(g)
    ensures SameStop(SkipValue(v + f), f, SkipValue(v + g), g)
    ensures SkipValue(v + f) == f <==> SkipValue(v + g) == g
  {
    hide SkipBody, SkipNest, SkipScalar;
    ValueSuffix(v + f);
    ValueSuffix(v + g);
    Drop(v, f, 1);
    Drop(v, g, 1);
    NestSameStop(v[1..], f, g, '{', '}', 1);
    NestSameStop(v[1..], f, g, '[', ']', 1);
    BodySameStop(v[1..], f, g);
    ScalarSameStop(v, f, g);
    Drop(v, f, |v|);
    Drop(v, g, |v|);
  }

  lemma {:induction false} UpToNulAppend(a: string, b: string)
    requires '\0' !in a
    ensures UpToNul(a + b) == a + UpToNul(b)
  {
    if a == "" {
      assert a + b == b;
    } else {
      Drop(a, b, 1);
      assert a[0] in a;
      UpToNulAppend(a[1..], b);
    }
  }

  lemma NulInside(value: string, foot: string)
    requires '\0' in value
    ensures |UpToNul(value + foot)| < |value|
  {
    var t := UpToNul(value + foot);
    LongPrefix(t, value, foot);
    InPrefix(value, t, '\0');
  }

  lemma LongPrefix(t: string, value: string, foot: string)
    requires t <= value + foot
    ensures |t| >= |value| ==> value <= t
  {}

  lemma InPrefix(value: string, t: string, c: char)
    requires c in value
    ensures value <= t ==> c in t
  {
    var i :| 0 <= i < |value| && value[i] == c;
    assert value <= t ==> t[i] == c;
  }

  lemma {:induction false} GapIsSkipped(gap: string, p: string)
    requires forall c | c in gap :: IsSpace(c)
    ensures SkipSpace(gap + p) == SkipSpace(p)
  {
    if gap == "" {
      assert gap + p == p;
    } else {
      Drop(gap, p, 1);
      assert gap[0] in gap;
      GapIsSkipped(gap[1..], p);
    }
  }

  lemma SpaceStops(p: string)
    ensures SkipSpace(p) == "" || !IsSpace(SkipSpace(p)[0])
  {}

  lemma NullAhead(value: string, foot: string)
    requires Ends(foot)
    ensures "null" <= value + foot <==> "null" <= value
  {
    var p := value + foot;
    assert p[|value|] == foot[0];
  }

  /** The extractor on a value without NUL and what follows it. */
  lemma ReadIff(value: string, foot: string)
    requires value != "" && '\0' !in value && |value| <= VALUE_MAX && Ends(foot)
    ensures ValueSpec(SkipSpace(value + foot), VALUE_MAX + 1) == Some(value) && value != "null" <==> Survives(value)
  {
    hide SkipValue;
    var p := value + foot;
    if IsSpace(value[0]) {
      SpaceStops(p);
      FirstKept(SkipSpace(p), value);
    } else {
      NullAhead(value, foot);
      StopsAlike(value, foot, ",");
      Drop(value, foot, |value|);
      assert p[..|value|] == value;
      ValueSuffix(p);
    }
  }

  /** A value comes back from behind the colon, whatever surrounds it, exactly when it
      survives; null is extracted but asks for nothing. */
  lemma StoredIff(gap: string, value: string, foot: string)
    requires (forall c | c in gap :: IsSpace(c)) && value != "" && |value| <= VALUE_MAX && Ends(foot)
    ensures ValueSpec(SkipSpace(UpToNul(gap + (value + foot))), VALUE_MAX + 1) == Some(value) && value != "null"
       <==> Survives(value)
  {
    hide ValueSpec, SkipValue, SkipSpace;
    UpToNulAppend(gap, value + foot);
    GapIsSkipped(gap, UpToNul(value + foot));
    if '\0' in value {
      NulInside(value, foot);
      ShortValue(SkipSpace(UpToNul(value + foot)), value);
    } else {
      UpToNulAppend(value, foot);
      ReadIff(value, UpToNul(foot));
    }
  }

  lemma FirstKept(p: string, value: string)
    requires value != "" && (p == "" || p[0] != value[0])
    ensures ValueSpec(p, VALUE_MAX + 1) != Some(value)
  {}

  lemma ShortValue(p: string, value: string)
    requires |p| < |value|
    ensures ValueSpec(p, VALUE_MAX + 1) != Some(value)
  {}

  // ----- documents -----------------------------------------------------------------------

  /** Any JSON document, that is a value with white space around it. */
  datatype Document = Document(lead: string, tree: Json, trail: string)

  predicate DocumentOk(d: Document) {
    IsGap(d.lead) && WellFormed(d.tree) && IsGap(d.trail)
  }

  function DocumentText(d: Document): string {
    d.lead + (TextOf(d.tree) + d.trail)
  }

  lemma DocumentNoNul(d: Document)
    requires DocumentOk(d)
    ensures '\0' !in DocumentText(d)
  {
    ValueNoNul(d.tree, "");
  }

  /** A JSON document survives exactly if it is trimmed and not null. */
  lemma DocumentSurvives(d: Document)
    requires DocumentOk(d)
    ensures Survives(DocumentText(d)) <==> d.lead == "" && d.trail == "" && !d.tree.Null?
  {
    hide SkipValue, Print, WellFormed;
    var value := DocumentText(d);
    DocumentNoNul(d);
    FirstChar(d.tree, "");
    if d.lead != "" {
      assert value[0] == d.lead[0] && d.lead[0] in d.lead;
    } else {
      FirstChar(d.tree, d.trail);
      PrintIsText(d.tree, d.trail);
      assert value == Print(d.tree, d.trail);
      PrintIsText(d.tree, d.trail + ",");
      Assoc(TextOf(d.tree), d.trail, ",");
      if d.trail != "" { assert d.trail[0] in d.trail; }
      SkipOverValue(d.tree, d.trail + ",");
    }
  }

  /** A text with an open bracket passes the check of the store and does not survive. */
  lemma OpenBracketIsLost()
    ensures JsonOk("{1") && !Survives("{1")
  {
    assert ("{1" + ",")[1..] == "1,";
    assert "1,"[1..] == ",";
  }
}
