/** COSE_Sign1 encoding (cose_sign1.rs): wrapping the payload as a byte string, the Sig_structure of
    section 4.4 of RFC 9052, and the signed message of section 4.2. */
module Cose {
  import opened Basics
  import opened Cbor

  datatype CoseSign1Error = Unknown | InvalidSigningKey | InvalidPayload | BufferTooSmall | Signature | CborEncoding

  /** "Signature1" in ASCII. */
  const SIG_CONTEXT_STRING: seq<Byte> := [0x53, 0x69, 0x67, 0x6e, 0x61, 0x74, 0x75, 0x72, 0x65, 0x31]
  const PROTECTED_HEADERS_ES256: seq<Byte> := [0xa1, 0x01, 0x26]
  const SIG_STRUCTURE_MAX_SIZE: nat := 700
  const CBOR_TAG_COSE_SIGN1: nat := 18
  const KID: nat := 4

  // ----- Heads into a small buffer ---------------------------------------------------------

  /** Writes the head of an item into the start of the buffer and says how long it is. */
  method EncodeCborMajorLenHeader(major: nat, len: nat, header: array<Byte>) returns (n: nat)
    requires major < 8 && len < TWO_64 && header.Length == 9
    modifies header
    ensures n == |Head(major, len)| && header[..n] == Head(major, len)
  {
    var tag := 32 * major;
    if len < 24 {
      header[0] := tag + len;
      n := 1;
    } else if len < 0x100 {
      header[0] := tag + 0x18;
      header[1] := len;
      assert BeBytes(len, 1) == [len] by { assert BeBytes(len / 256, 0) == []; }
      n := 2;
    } else if len < 0x1_0000 {
      header[0] := tag + 0x19;
      CopyInto(header, 1, BeBytes(len, 2));
      n := 3;
    } else if len < 0x1_0000_0000 {
      header[0] := tag + 0x1a;
      CopyInto(header, 1, BeBytes(len, 4));
      n := 5;
    } else {
      header[0] := tag + 0x1b;
      CopyInto(header, 1, BeBytes(len, 8));
      n := 9;
    }
    assert header[..n] == [header[0]] + header[1..n];
  }

  method CopyInto(out: array<Byte>, at: nat, bs: seq<Byte>)
    requires at + |bs| <= out.Length
    modifies out
    ensures out[at..at + |bs|] == bs
    ensures out[..at] == old(out[..at]) && out[at + |bs|..] == old(out[at + |bs|..])
  {
    forall i | 0 <= i < |bs| {
      out[at + i] := bs[i];
    }
  }

  // ----- The payload as a byte string ------------------------------------------------------

  method EncodePayloadBstr(payload: seq<Byte>, out: array<Byte>) returns (r: Result<nat, CoseSign1Error>)
    modifies out
    ensures r == if |BytesItem(payload)| <= out.Length then Ok(|BytesItem(payload)|) else Err(CoseSign1Error.BufferTooSmall)
    ensures r.Ok? ==> out[..r.value] == BytesItem(payload)
  {
    hide BytesItem;
    var w := new Writer.Cursor(out);
    var ok := w.PutBytes(payload);
    if !ok {
      return Err(CoseSign1Error.BufferTooSmall);
    }
    assert out[..0] == [];
    return Ok(w.pos);
  }

  /** Shifts the payload at the start of the buffer to make room for its head: the same bytes as
      out of place, for every length. */
  method EncodePayloadBstrInPlace(payloadLen: nat, out: array<Byte>) returns (r: Result<nat, CoseSign1Error>)
    requires payloadLen < TWO_64
    modifies out
    ensures r.Ok? <==> 1 + ExtraBytes(payloadLen) + payloadLen <= out.Length
    ensures r.Ok? ==> r.value == |BytesItem(old(out[..payloadLen]))| && out[..r.value] == BytesItem(old(out[..payloadLen]))
    ensures r.Err? ==> r.error == CoseSign1Error.BufferTooSmall && out[..] == old(out[..])
  {
    hide Head;
    var header := new Byte[9](i => 0);
    var headerLen := EncodeCborMajorLenHeader(BYTES, payloadLen, header);
    var total := payloadLen + headerLen;
    if total > out.Length {
      return Err(CoseSign1Error.BufferTooSmall);
    }
    ghost var payload := out[..payloadLen];
    CopyWithin(out, payloadLen, headerLen);
    var head := header[..headerLen];
    assert |head| == headerLen;
    ghost var shifted := out[|head|..];
    CopyInto(out, 0, head);
    assert out[|head|..] == shifted;
    assert out[..total] == out[..|head|] + out[|head|..][..payloadLen];
    return Ok(total);
  }

  /** Move the first n bytes up; source and destination may overlap. */
  method CopyWithin(out: array<Byte>, n: nat, to: nat)
    requires to + n <= out.Length
    modifies out
    ensures out[to..][..n] == old(out[..n])
  {
    forall i | 0 <= i < n {
      out[to + i] := out[i];
    }
  }

  /** One definite-length byte string and nothing after it. */
  function ValidatePayloadBstr(s: seq<Byte>): Result<(), CoseSign1Error> {
    match DecodeString(BYTES, s)
    case Some(item) => if item.rest == [] then Ok(()) else Err(InvalidPayload)
    case None => Err(InvalidPayload)
  }

  /** Every wrapped payload passes validation. */
  lemma WrappedPayloadIsValid(payload: seq<Byte>)
    requires |payload| < TWO_64
    ensures ValidatePayloadBstr(BytesItem(payload)) == Ok(())
  {
    StringReadsBack(BYTES, payload, []);
    assert BytesItem(payload) + [] == BytesItem(payload);
  }

  // ----- The signed structure --------------------------------------------------------------

  /** Sig_structure of section 4.4 of RFC 9052 for one signer: an array of the context text, the
      protected header, the external data and the payload, all as byte strings. */
  function SigStructure(protectedHeaders: seq<Byte>, externalAad: seq<Byte>, payloadBstr: seq<Byte>): seq<Byte> {
    Head(ARRAY, 4) + (Head(TEXT, |SIG_CONTEXT_STRING|) + SIG_CONTEXT_STRING)
    + BytesItem(protectedHeaders) + BytesItem(externalAad) + payloadBstr
  }

  /** The signed bytes determine what was signed. */
  lemma SigStructureIsInjective(p1: seq<Byte>, a1: seq<Byte>, y1: seq<Byte>, p2: seq<Byte>, a2: seq<Byte>, y2: seq<Byte>)
    requires |p1| < TWO_64 && |a1| < TWO_64 && |y1| < TWO_64 && |p2| < TWO_64 && |a2| < TWO_64 && |y2| < TWO_64
    requires SigStructure(p1, a1, BytesItem(y1)) == SigStructure(p2, a2, BytesItem(y2))
    ensures p1 == p2 && a1 == a2 && y1 == y2
  {
    hide BytesItem, Head;
    var prefix := Head(ARRAY, 4) + (Head(TEXT, |SIG_CONTEXT_STRING|) + SIG_CONTEXT_STRING);
    var rest1 := BytesItem(p1) + (BytesItem(a1) + BytesItem(y1));
    var rest2 := BytesItem(p2) + (BytesItem(a2) + BytesItem(y2));
    assert SigStructure(p1, a1, BytesItem(y1)) == prefix + rest1;
    assert SigStructure(p2, a2, BytesItem(y2)) == prefix + rest2;
    assert rest1 == (prefix + rest1)[|prefix|..] && rest2 == (prefix + rest2)[|prefix|..];
    BytesItemIsInjective(p1, BytesItem(a1) + BytesItem(y1), p2, BytesItem(a2) + BytesItem(y2));
    BytesItemIsInjective(a1, BytesItem(y1), a2, BytesItem(y2));
    assert BytesItem(y1) + [] == BytesItem(y1) && BytesItem(y2) + [] == BytesItem(y2);
    BytesItemIsInjective(y1, [], y2, []);
  }

  lemma ContextHead()
    ensures Head(ARRAY, 4) + (Head(TEXT, |SIG_CONTEXT_STRING|) + SIG_CONTEXT_STRING) == [0x84, 0x6a] + SIG_CONTEXT_STRING
  {
    assert BeBytes(4, 0) == [] && BeBytes(10, 0) == [];
    assert Head(ARRAY, 4) == [0x84] && Head(TEXT, 10) == [0x6a];
  }

  method BuildSigStructure(protectedHeaders: seq<Byte>, externalAad: seq<Byte>, payloadBstr: seq<Byte>, out: array<Byte>)
    returns (r: Result<nat, CoseSign1Error>)
    requires |protectedHeaders| < TWO_64 && |externalAad| < TWO_64
    modifies out
    ensures var s := SigStructure(protectedHeaders, externalAad, payloadBstr);
            && r == (if |s| <= out.Length then Ok(|s|) else Err(CoseSign1Error.BufferTooSmall))
            && (r.Ok? ==> out[..r.value] == s)
  {
    hide Head;
    var extHeader, protHeader := new Byte[9](i => 0), new Byte[9](i => 0);
    var extLen := EncodeCborMajorLenHeader(BYTES, |externalAad|, extHeader);
    var protLen := EncodeCborMajorLenHeader(BYTES, |protectedHeaders|, protHeader);
    ghost var protItem, extItem := BytesItem(protectedHeaders), BytesItem(externalAad);
    ghost var whole := SigStructure(protectedHeaders, externalAad, payloadBstr);
    assert whole == [0x84, 0x6a] + SIG_CONTEXT_STRING + protItem + extItem + payloadBstr by { ContextHead(); }

    var total := 2 + |SIG_CONTEXT_STRING| + protLen + |protectedHeaders| + extLen + |externalAad| + |payloadBstr|;
    if out.Length < total {
      return Err(CoseSign1Error.BufferTooSmall);
    }

    var cursor := 0;
    cursor := Append(out, cursor, [0x84, 0x6a], []);
    cursor := Append(out, cursor, SIG_CONTEXT_STRING, [0x84, 0x6a]);
    ghost var soFar := [0x84, 0x6a] + SIG_CONTEXT_STRING;
    cursor := AppendItem(out, cursor, protHeader[..protLen], protectedHeaders, soFar);
    soFar := soFar + protItem;
    cursor := AppendItem(out, cursor, extHeader[..extLen], externalAad, soFar);
    soFar := soFar + extItem;
    cursor := Append(out, cursor, payloadBstr, soFar);
    return Ok(cursor);
  }

  method AppendItem(out: array<Byte>, cursor: nat, head: seq<Byte>, bs: seq<Byte>, ghost soFar: seq<Byte>) returns (next: nat)
    requires cursor + |head| + |bs| <= out.Length && out[..cursor] == soFar && head == Head(BYTES, |bs|)
    modifies out
    ensures next == cursor + |BytesItem(bs)| && out[..next] == soFar + BytesItem(bs)
  {
    next := Append(out, cursor, head, soFar);
    next := Append(out, next, bs, soFar + head);
    assert soFar + head + bs == soFar + (head + bs);
  }

  /** Copy one piece behind what has been written. */
  method Append(out: array<Byte>, cursor: nat, bs: seq<Byte>, ghost soFar: seq<Byte>) returns (next: nat)
    requires cursor + |bs| <= out.Length && out[..cursor] == soFar
    modifies out
    ensures next == cursor + |bs| && out[..next] == soFar + bs
  {
    CopyInto(out, cursor, bs);
    assert out[..cursor + |bs|] == out[..cursor] + out[cursor..cursor + |bs|];
    return cursor + |bs|;
  }

  // ----- The signed message ----------------------------------------------------------------

  /** Hashing and signing are outside the model; a successful call returns 32 and 64 bytes. */
  datatype Crypto = Crypto(
    hash: seq<Byte> -> Result<seq<Byte>, CoseSign1Error>,
    sign: seq<Byte> -> Result<seq<Byte>, CoseSign1Error>)

  ghost predicate CryptoSized(c: Crypto) {
    && (forall m :: c.hash(m).Ok? ==> |c.hash(m).value| == 32)
    && (forall d :: c.sign(d).Ok? ==> |c.sign(d).value| == 64)
  }

  datatype Sign1Options = Sign1Options(omitCborTag: bool, detachedPayload: bool)

  function UnprotectedItem(keyId: Option<seq<Byte>>): seq<Byte> {
    match keyId
    case None => Head(MAP, 0)
    case Some(kid) => Head(MAP, 1) + (Head(UNSIGNED, KID) + BytesItem(kid))
  }

  function HeaderItems(keyId: Option<seq<Byte>>): seq<Byte> {
    Head(ARRAY, 4) + BytesItem(PROTECTED_HEADERS_ES256) + UnprotectedItem(keyId)
  }

  function BodyItems(o: Sign1Options, keyId: Option<seq<Byte>>, payloadBstr: seq<Byte>, signature: seq<Byte>): seq<Byte> {
    HeaderItems(keyId) + (if o.detachedPayload then [0xf6] else payloadBstr) + BytesItem(signature)
  }

  /** COSE_Sign1 of section 4.2 of RFC 9052: protected and unprotected headers, payload or null for a
      detached one, signature. */
  function Sign1(o: Sign1Options, keyId: Option<seq<Byte>>, payloadBstr: seq<Byte>, signature: seq<Byte>): seq<Byte> {
    (if o.omitCborTag then [] else Head(TAG, CBOR_TAG_COSE_SIGN1))
    + BodyItems(o, keyId, payloadBstr, signature)
  }

  /** The signature over the structure, or why there is none. */
  function Signed(c: Crypto, externalAad: seq<Byte>, payloadBstr: seq<Byte>): Result<seq<Byte>, CoseSign1Error> {
    var s := SigStructure(PROTECTED_HEADERS_ES256, externalAad, payloadBstr);
    if |s| > SIG_STRUCTURE_MAX_SIZE then Err(CoseSign1Error.BufferTooSmall)
    else match c.hash(s)
      case Err(e) => Err(e)
      case Ok(digest) => c.sign(digest)
  }

  method HashSigStructure(c: Crypto, externalAad: seq<Byte>, payloadBstr: seq<Byte>)
    returns (r: Result<seq<Byte>, CoseSign1Error>)
    requires |externalAad| < TWO_64
    ensures var s := SigStructure(PROTECTED_HEADERS_ES256, externalAad, payloadBstr);
            r == if |s| > SIG_STRUCTURE_MAX_SIZE then Err(CoseSign1Error.BufferTooSmall) else c.hash(s)
  {
    hide SigStructure;
    var buf := new Byte[SIG_STRUCTURE_MAX_SIZE](i => 0);
    var len := BuildSigStructure(PROTECTED_HEADERS_ES256, externalAad, payloadBstr, buf);
    if len.Err? {
      return Err(len.error);
    }
    return c.hash(buf[..len.value]);
  }

  method EncodeFromPayloadBstr(c: Crypto, o: Sign1Options, keyId: Option<seq<Byte>>, externalAad: seq<Byte>,
                               payloadBstr: seq<Byte>, out: array<Byte>)
    returns (r: Result<nat, CoseSign1Error>)
    requires |externalAad| < TWO_64
    modifies out
    ensures ValidatePayloadBstr(payloadBstr).Err? ==> r == Err(InvalidPayload)
    ensures ValidatePayloadBstr(payloadBstr).Ok? ==>
              match Signed(c, externalAad, payloadBstr)
              case Err(e) => r == Err(e)
              case Ok(signature) =>
                var m := Sign1(o, keyId, payloadBstr, signature);
                && r == (if |m| <= out.Length then Ok(|m|) else Err(CoseSign1Error.BufferTooSmall))
                && (r.Ok? ==> out[..r.value] == m)
  {
    hide Head, BytesItem, SigStructure, Sign1, DecodeString;
    var valid := ValidatePayloadBstr(payloadBstr);
    if valid.Err? {
      return Err(valid.error);
    }
    var digest := HashSigStructure(c, externalAad, payloadBstr);
    if digest.Err? {
      return Err(digest.error);
    }
    var signature := c.sign(digest.value);
    if signature.Err? {
      return Err(signature.error);
    }
    var w := new Writer.Cursor(out);
    assert out[..0] == [];
    var ok := EncodeSign1(w, o, keyId, payloadBstr, signature.value);
    if !ok {
      return Err(CoseSign1Error.BufferTooSmall);
    }
    return Ok(w.pos);
  }

  method EncodeSign1(w: Writer, o: Sign1Options, keyId: Option<seq<Byte>>, payloadBstr: seq<Byte>, signature: seq<Byte>)
    returns (ok: bool)
    requires w.Valid()
    modifies w, w.buf
    ensures w.Wrote(Sign1(o, keyId, payloadBstr, signature), ok)
  {
    hide Head, BodyItems, Effect;
    ghost var start := w.Now();
    NothingWritten(start);
    ok := true;
    if !o.omitCborTag {
      ok := w.PutHead(TAG, CBOR_TAG_COSE_SIGN1);
    }
    ghost var first, mid := ok, w.Now();
    if ok {
      ok := EncodeBody(w, o, keyId, payloadBstr, signature);
    }
    Joined(start, if o.omitCborTag then [] else Head(TAG, CBOR_TAG_COSE_SIGN1), first, mid,
           BodyItems(o, keyId, payloadBstr, signature), ok, w.Now());
  }

  method EncodeBody(w: Writer, o: Sign1Options, keyId: Option<seq<Byte>>, payloadBstr: seq<Byte>, signature: seq<Byte>)
    returns (ok: bool)
    requires w.Valid()
    modifies w, w.buf
    ensures w.Wrote(BodyItems(o, keyId, payloadBstr, signature), ok)
  {
    hide Head, BytesItem, HeaderItems, Effect;
    ghost var start := w.Now();
    var payload := if o.detachedPayload then [0xf6] else payloadBstr;
    ok := EncodeHeaders(w, keyId);
    ghost var first, afterHeaders := ok, w.Now();
    if ok {
      ok := w.WriteAll(payload);
    }
    ghost var second, afterPayload := ok, w.Now();
    Joined(start, HeaderItems(keyId), first, afterHeaders, payload, second, afterPayload);
    if ok {
      ok := w.PutBytes(signature);
    }
    Joined(start, HeaderItems(keyId) + payload, second, afterPayload, BytesItem(signature), ok, w.Now());
  }

  method EncodeHeaders(w: Writer, keyId: Option<seq<Byte>>) returns (ok: bool)
    requires w.Valid()
    modifies w, w.buf
    ensures w.Wrote(HeaderItems(keyId), ok)
  {
    hide Head, BytesItem, UnprotectedItem, Effect;
    ghost var start := w.Now();
    ok := w.PutHead(ARRAY, 4);
    ghost var first, afterHead := ok, w.Now();
    if ok {
      ok := w.PutBytes(PROTECTED_HEADERS_ES256);
    }
    ghost var second, afterProtected := ok, w.Now();
    Joined(start, Head(ARRAY, 4), first, afterHead, BytesItem(PROTECTED_HEADERS_ES256), second, afterProtected);
    if ok {
      ok := EncodeUnprotected(w, keyId);
    }
    Joined(start, Head(ARRAY, 4) + BytesItem(PROTECTED_HEADERS_ES256), second, afterProtected,
           UnprotectedItem(keyId), ok, w.Now());
  }

  method EncodeUnprotected(w: Writer, keyId: Option<seq<Byte>>) returns (ok: bool)
    requires w.Valid()
    modifies w, w.buf
    ensures w.Wrote(UnprotectedItem(keyId), ok)
  {
    hide Head, BytesItem, Effect;
    if keyId.None? {
      ok := w.PutHead(MAP, 0);
      return;
    }
    ghost var start := w.Now();
    ok := w.PutHead(MAP, 1);
    ghost var first, mid := ok, w.Now();
    if ok {
      ok := EncodeKeyId(w, keyId.value);
    }
    Joined(start, Head(MAP, 1), first, mid, Head(UNSIGNED, KID) + BytesItem(keyId.value), ok, w.Now());
  }

  method EncodeKeyId(w: Writer, keyId: seq<Byte>) returns (ok: bool)
    requires w.Valid()
    modifies w, w.buf
    ensures w.Wrote(Head(UNSIGNED, KID) + BytesItem(keyId), ok)
  {
    hide Head, BytesItem, Effect;
    ghost var start := w.Now();
    ok := w.PutHead(UNSIGNED, KID);
    ghost var first, mid := ok, w.Now();
    if ok {
      ok := w.PutBytes(keyId);
    }
    Joined(start, Head(UNSIGNED, KID), first, mid, BytesItem(keyId), ok, w.Now());
  }
}
