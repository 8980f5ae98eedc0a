/** What a NOTIFY payload must say to have an effect, told by its fields, and the request ids
    that travel with the announcements. */
module PayloadLaws {
  import opened Text
  import opened StateStore
  import opened NotifyScan
  import opened Hub
  import opened NotifyApply
  import opened Message
  import StoreLaws

  /** A payload that is not refused: not empty or oversized, it begins like JSON, names a
      namespace, a key of the documented charset and one of the two operations. */
  ghost predicate Heard(json: string, ns: string, key: string, op: string) {
    && 0 < |json| <= 8000 && StoreLaws.BeginsJson(json)
    && StringFieldSpec(json, "ns", 64) == Some(ns)
    && StringFieldSpec(json, "key", 128) == Some(key) && StoreLaws.KeySpelled(key)
    && StringFieldSpec(json, "op", 16) == Some(op)
  }

  /** A payload asks for a put exactly if its operation is put and it has a value but null. */
  lemma AsksPutIff(json: string, ns: string, key: string, value: string)
    ensures ParseSpec(json) == Asks(PutOrder(ns, key, value))
       <==> Heard(json, ns, key, "put") && ExtractSpec(json, 65537) == Some(value) && value != "null"
  {
    hide StringFieldSpec, ExtractSpec, JsonOk, KeyValid, StoreLaws.KeySpelled, StoreLaws.BeginsJson;
    StoreLaws.JsonIsSpelled(json);
    StoreLaws.KeyIsSpelled(key);
    assert "put" != "delete";
  }

  /** A payload asks for a deletion exactly if its operation is delete, whatever else it holds. */
  lemma AsksDeleteIff(json: string, ns: string, key: string)
    ensures ParseSpec(json) == Asks(DeleteOrder(ns, key)) <==> Heard(json, ns, key, "delete")
  {
    hide StringFieldSpec, ExtractSpec, JsonOk, KeyValid, StoreLaws.KeySpelled, StoreLaws.BeginsJson;
    StoreLaws.JsonIsSpelled(json);
    StoreLaws.KeyIsSpelled(key);
  }

  /** What obeying an order does to the store is what the store says, it is announced exactly
      if it succeeds, and a payload fails only if the store refuses more than the deletion of
      what is not there. */
  lemma Obeyed(lim: Limits, v: View, json: string, rid: string, o: Order)
    requires ParseSpec(json) == Asks(o)
    ensures var (e, w, c) := ApplySpec(lim, v, json, rid);
            match o
            case PutOrder(ns, key, value) =>
              && w == PutSpec(lim, v, ns, key, value).1
              && (e == Applied <==> PutSpec(lim, v, ns, key, value).0 == Ok)
              && c == (if e == Applied then Some(Change(ns, key, "put", value, rid)) else None)
            case DeleteOrder(ns, key) =>
              && w == DeleteSpec(v, ns, key).1
              && (e == Applied <==> DeleteSpec(v, ns, key).0 == Ok || DeleteSpec(v, ns, key).0 == NotFound)
              && c == (if DeleteSpec(v, ns, key).0 == Ok then Some(Change(ns, key, "delete", "", rid)) else None)
  {
    hide ParseSpec, KeyValid, JsonOk;
  }

  // ----- request ids ----------------------------------------------------------------------------

  function Power16(n: nat): nat {
    if n == 0 then 1 else 16 * Power16(n - 1)
  }

  lemma DigitsDiffer(d: nat, e: nat)
    requires d < 16 && e < 16 && HexDigit(d) == HexDigit(e)
    ensures d == e
  {}

  lemma {:induction false} HexInjective(v: nat, w: nat, n: nat)
    requires v < Power16(n) && w < Power16(n) && Hex16(v, n) == Hex16(w, n)
    ensures v == w
  {
    hide HexDigit;
    if n > 0 {
      var a, b := Hex16(v / 16, n - 1), Hex16(w / 16, n - 1);
      assert a + [HexDigit(v % 16)] == b + [HexDigit(w % 16)];
      LastOf(a, HexDigit(v % 16), b, HexDigit(w % 16));
      DigitsDiffer(v % 16, w % 16);
      HexInjective(v / 16, w / 16, n - 1);
    }
  }

  lemma LastOf(a: string, x: char, b: string, y: char)
    requires a + [x] == b + [y]
    ensures a == b && x == y
  {
    assert a == (a + [x])[..|a|] && b == (b + [y])[..|b|] && |a| == |b|;
    assert (a + [x])[|a|] == x && (b + [y])[|b|] == y;
  }

  lemma {:induction false} HexLength(v: nat, n: nat)
    ensures |Hex16(v, n)| == n
  {
    if n > 0 { HexLength(v / 16, n - 1); }
  }

  /** Two counter values never give the same request id. */
  lemma MintedDiffer(v: nat, w: nat)
    requires v < 0x1_0000_0000_0000_0000 && w < 0x1_0000_0000_0000_0000 && v != w
    ensures MintedText(v) != MintedText(w)
  {
    hide Hex16, HexDigit;
    HexLength(v, 16);
    HexLength(w, 16);
    Sixteen();
    var a, b := Hex16(v, 16), Hex16(w, 16);
    assert ("eh" + a)[2..] == a && ("eh" + b)[2..] == b;
    if a == b { HexInjective(v, w, 16); }
  }

  lemma Sixteen()
    ensures Power16(16) == 0x1_0000_0000_0000_0000
  {
    assert Power16(4) == 0x1_0000;
    assert Power16(8) == 0x1_0000_0000;
    assert Power16(12) == 0x1_0000_0000_0000;
  }

  lemma RestOfDelete(c: Change)
    requires c.value == ""
    ensures ":" + Rest(c) == Field(":null,", "request_id", ":", c.rid, "}")
  {}

  lemma IdSegs(c: Change)
    requires PlainName(c.ns) && PlainName(c.key) && PlainName(c.rid) && (c.op == "put" || c.op == "delete")
    requires c.ns != "request_id" && c.key != "request_id"
    ensures var segs := Segs(c) + [":null,", "request_id", ":", c.rid];
            QuoteFree(segs) && FirstSeg(segs, 19, "request_id") && segs[21] == c.rid
  {
    var segs := Segs(c) + [":null,", "request_id", ":", c.rid];
    assert segs[19] == "request_id";
    assert forall j | 1 <= j < 19 :: segs[j] != "request_id" by {
      assert "request_id"[0] == 'r' && |"request_id"| == 10;
    }
  }

  /** The announcement of a deletion carries its request id: whoever applies it announces it
      under the same one. */
  lemma DeletionKeepsId(c: Change, minted: string)
    requires Readable(c) && c.op == "delete" && c.value == "" && PlainName(c.rid) && |c.rid| < REQUEST_ID
    requires c.ns != "request_id" && c.key != "request_id"
    ensures RidSpec(ChangeText(c), minted) == c.rid
  {
    hide ChangeText, Segs, Cut, FieldIn, UpToNul, JsonOk, Rest, Layout, PlainName;
    KeyIsPlain(c.key);
    var more := [":null,", "request_id", ":", c.rid];
    ChangeIsCut(c);
    RestOfDelete(c);
    FieldCut(":null,", "request_id", ":", c.rid, [], "}");
    EmptyCut("}");
    assert more + [] == more;
    CutAppend(Segs(c), more, "}");
    IdSegs(c);
    IdIsPlain(c.rid);
    FieldOfCut(Segs(c) + more, 19, "request_id", "}", REQUEST_ID);
    NothingHidden(Segs(c) + more, c);
    SeenAs(c);
    IdRead(ChangeText(c), c.rid);
  }

  lemma IdIsPlain(rid: string)
    requires PlainName(rid)
    ensures '\\' !in rid
  {}

  lemma NothingHidden(segs: seq<string>, c: Change)
    requires segs == Segs(c) + [":null,", "request_id", ":", c.rid]
    requires PlainName(c.ns) && PlainName(c.key) && PlainName(c.rid) && (c.op == "put" || c.op == "delete")
    ensures UpToNul(Cut(segs, "}")) == Cut(segs, "}")
  {
    hide Cut;
    UpToNulOfCut(segs, "}");
    assert UpToNul("}") == "}";
  }

  lemma IdRead(json: string, rid: string)
    requires 0 < |json| <= MAX_PAYLOAD && FieldIn(UpToNul(json), Quoted("request_id"), REQUEST_ID) == Some(rid)
    ensures RidSpec(json, "") == rid && forall minted: string :: RidSpec(json, minted) == rid
  {
    hide FieldIn, UpToNul;
    FieldSpecIs(json, "request_id", REQUEST_ID, rid);
  }
}
