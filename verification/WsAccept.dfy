/** src/host/ws_stream.c, edge_ws_accept_key: the handshake answer of section 4.2.2 of
    RFC 6455. */
module WsAccept {
  import opened Base64
  import Sha1
  import opened Text

  const KEY_MAX: nat := 64
  const GUID := "258EAFA5-E914-47DA-95CA-C5AB0DC85B11"

  predicate LeadBlank(c: char) {
    c == ' ' || c == '\t'
  }

  predicate TailBlank(c: char) {
    c == ' ' || c == '\t' || c == '\r' || c == '\n'
  }

  function DropLead(s: string): (r: string)
    ensures |r| <= |s| && (OneByteChars(s) ==> OneByteChars(r))
  {
    if s != [] && LeadBlank(s[0]) then DropLead(s[1..]) else s
  }

  function DropTail(s: string): (r: string)
    ensures |r| <= |s| && (OneByteChars(s) ==> OneByteChars(r))
  {
    if s != [] && TailBlank(s[|s| - 1]) then DropTail(s[..|s| - 1]) else s
  }

  function Trimmed(s: string): (r: string)
    ensures |r| <= |s| && (OneByteChars(s) ==> OneByteChars(r))
  {
    DropTail(DropLead(s))
  }

  /** Whatever blanks surround a key, the key itself is what is left. */
  lemma TrimmedIsKey(lead: string, k: string, tail: string)
    requires forall i | 0 <= i < |lead| :: LeadBlank(lead[i])
    requires forall i | 0 <= i < |tail| :: TailBlank(tail[i])
    requires k == [] || (!LeadBlank(k[0]) && !TailBlank(k[|k| - 1]))
    ensures Trimmed(lead + (k + tail)) == k
  {
    LeadDropped(lead, k + tail);
    if k == [] {
      assert k + tail == tail;
      OnlyBlanks(tail);
    } else {
      TailDropped(k, tail);
    }
  }

  lemma {:induction false} LeadDropped(lead: string, s: string)
    requires forall i | 0 <= i < |lead| :: LeadBlank(lead[i])
    ensures DropLead(lead + s) == DropLead(s)
  {
    if lead == [] {
      assert lead + s == s;
    } else {
      assert (lead + s)[1..] == lead[1..] + s;
      LeadDropped(lead[1..], s);
    }
  }

  lemma {:induction false} TailDropped(s: string, tail: string)
    requires forall i | 0 <= i < |tail| :: TailBlank(tail[i])
    ensures DropTail(s + tail) == DropTail(s)
  {
    if tail == [] {
      assert s + tail == s;
    } else {
      assert (s + tail)[..|s + tail| - 1] == s + tail[..|tail| - 1];
      TailDropped(s, tail[..|tail| - 1]);
    }
  }

  lemma {:induction false} OnlyBlanks(s: string)
    requires forall i | 0 <= i < |s| :: TailBlank(s[i])
    ensures DropTail(DropLead(s)) == []
  {
    if s != [] && LeadBlank(s[0]) {
      OnlyBlanks(s[1..]);
    } else {
      TailDropped([], s);
      assert [] + s == s;
    }
  }

  /** The two trimming loops. */
  method Trim(key: string) returns (k: string)
    ensures k == Trimmed(key)
  {
    k := key;
    while k != [] && LeadBlank(k[0])
      invariant DropLead(k) == DropLead(key)
    {
      k := k[1..];
    }
    while |k| > 0 && TailBlank(k[|k| - 1])
      invariant DropTail(k) == Trimmed(key)
    {
      k := k[..|k| - 1];
    }
  }

  /** What is hashed. */
  function Handshake(k: string): (t: string)
    requires OneByteChars(k)
    ensures OneByteChars(t)
  {
    var t := k + GUID;
    assert forall i | |k| <= i < |t| :: t[i] == GUID[i - |k|];
    t
  }

  /** The GUID of section 1.3 of RFC 6455. */
  lemma HandshakeIs(k: string)
    requires OneByteChars(k)
    ensures Handshake(k) == k + "258EAFA5-E914-47DA-95CA-C5AB0DC85B11"
  {}

  /** edge_ws_accept_key. It answers exactly when the buffer holds 29 bytes and 1 to 63
      characters are left after trimming; the answer is the base64 text of the SHA-1 of
      key and GUID, 28 characters the last of which is the only '='. */
  method AcceptKey(key: string, outSz: nat) returns (r: Option<string>)
    requires OneByteChars(key)
    ensures r.Some? <==> outSz >= 29 && 1 <= |Trimmed(key)| <= 63
    ensures r.Some? ==> r.value == EncodeSpec(Sha1.Hash(ToBytes(Handshake(Trimmed(key)))), false)
    ensures r.Some? ==> |r.value| == 28 && r.value[27] == '=' && '=' !in r.value[..27]
  {
    hide Sha1.Hash, EncodeSpec, ToBytes, Trimmed, Handshake;
    if outSz < 29 { return None; }
    var k := Trim(key);
    if |k| == 0 || |k| >= KEY_MAX { return None; }
    var ctx := new Sha1.Context();
    ctx.Update(ToBytes(Handshake(k)));
    assert [] + ToBytes(Handshake(k)) == ToBytes(Handshake(k));
    var dig := ctx.Final();
    DigestText(dig);
    r := Encode(dig, outSz, false);
  }

  lemma DigestText(dig: seq<byte>)
    requires |dig| == 20
    ensures var t := EncodeSpec(dig, false); |t| == 28 && t[27] == '=' && '=' !in t[..27]
  {
    var t := EncodeSpec(dig, false);
    forall j | 0 <= j < 27 ensures t[j] != '=' {
      CharsDecode(Digits(dig)[j]);
    }
  }
}
