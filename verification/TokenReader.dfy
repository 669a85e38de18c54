/** Reading back what is signed and what is sent: decoders for the Sig_structure of section 4.4 and the
    COSE_Sign1 message of section 4.2 of RFC 9052, and the token as its receiver sees it. */
module TokenReaders {
  import opened Basics
  import opened Cbor
  import opened PsaClaims
  import C = Cose
  import T = PsaTokens

  // ----- Decoders --------------------------------------------------------------------------

  /** Protected header and external data of a signed structure, and the bytes of the payload item. */
  datatype ToBeSigned = ToBeSigned(protectedHeaders: seq<Byte>, externalAad: seq<Byte>, payloadBstr: seq<Byte>)

  /** An array of four, "Signature1", and two byte strings; whatever follows is the payload. */
  function DecodeSigned(s: seq<Byte>): Option<ToBeSigned> {
    match DecodeHead(s)
    case Some(Decoded(4, 4, items)) =>
      (match DecodeString(3, items)
       case Some(context) =>
         if context.content != [0x53, 0x69, 0x67, 0x6e, 0x61, 0x74, 0x75, 0x72, 0x65, 0x31] then None
         else (match DecodeString(2, context.rest)
               case Some(header) =>
                 (match DecodeString(2, header.rest)
                  case Some(aad) => Some(ToBeSigned(header.content, aad.content, aad.rest))
                  case None => None)
               case None => None)
       case None => None)
    case _ => None
  }

  /** A message: whether it is tagged, its protected header, its key identifier, its payload unless that is
      detached, its signature, and what follows. */
  datatype Message = Message(
    tagged: bool, protectedHeaders: seq<Byte>, keyId: Option<seq<Byte>>,
    payload: Option<seq<Byte>>, signature: seq<Byte>, rest: seq<Byte>)

  /** An empty map, or one with a byte string under label 4. */
  function DecodeUnprotected(s: seq<Byte>): Option<Parsed<Option<seq<Byte>>>> {
    match DecodeHead(s)
    case Some(Decoded(5, n, rest)) =>
      if n == 0 then Some(Parsed(None, rest))
      else if n != 1 then None
      else (match DecodeKeyedBytes(4, rest)
            case Some(kid) => Some(Parsed(Some(kid.value), kid.rest))
            case None => None)
    case _ => None
  }

  /** Null, or a byte string. */
  function DecodeContent(s: seq<Byte>): Option<Parsed<Option<seq<Byte>>>> {
    if s != [] && s[0] == 0xf6 then Some(Parsed(None, s[1..]))
    else match DecodeString(2, s)
      case Some(item) => Some(Parsed(Some(item.content), item.rest))
      case None => None
  }

  /** An array of four: protected header, unprotected header, payload, signature. */
  function DecodeBody(tagged: bool, s: seq<Byte>): Option<Message> {
    match DecodeHead(s)
    case Some(Decoded(4, 4, items)) =>
      (match DecodeString(2, items)
       case Some(header) =>
         (match DecodeUnprotected(header.rest)
          case Some(unprotected) =>
            (match DecodeContent(unprotected.rest)
             case Some(content) =>
               (match DecodeString(2, content.rest)
                case Some(signature) =>
                  Some(Message(tagged, header.content, unprotected.value, content.value, signature.content, signature.rest))
                case None => None)
             case None => None)
          case None => None)
       case None => None)
    case _ => None
  }

  function DecodeSign1(s: seq<Byte>): Option<Message> {
    match DecodeHead(s)
    case Some(Decoded(6, 18, body)) => DecodeBody(true, body)
    case _ => DecodeBody(false, s)
  }

  // ----- What is signed --------------------------------------------------------------------

  /** The signed structure decodes to the protected header, then the external data, with exactly the
      payload item left, for any payload. */
  lemma SigStructureReadsBack(protectedHeaders: seq<Byte>, externalAad: seq<Byte>, payloadBstr: seq<Byte>)
    requires |protectedHeaders| < TWO_64 && |externalAad| < TWO_64
    ensures DecodeSigned(C.SigStructure(protectedHeaders, externalAad, payloadBstr))
            == Some(ToBeSigned(protectedHeaders, externalAad, payloadBstr))
  {
    hide Head, DecodeHead, DecodeString;
    var context := C.SIG_CONTEXT_STRING;
    var afterHeader := BytesItem(externalAad) + payloadBstr;
    var afterContext := BytesItem(protectedHeaders) + afterHeader;
    var items := TextItem(context) + afterContext;
    assert C.SigStructure(protectedHeaders, externalAad, payloadBstr) == Head(4, 4) + items;
    HeadReadsBack(4, 4, items);
    StringReadsBack(3, context, afterContext);
    StringReadsBack(2, protectedHeaders, afterHeader);
    StringReadsBack(2, externalAad, payloadBstr);
  }

  // ----- What is sent ----------------------------------------------------------------------

  /** A string decodes the same whatever follows it, and starts with a byte of its major type. */
  lemma StringIsDelimited(major: nat, s: seq<Byte>, rest: seq<Byte>)
    requires DecodeString(major, s).Some?
    ensures s != [] && s[0] / 32 == major
    ensures var item := DecodeString(major, s).value;
            DecodeString(major, s + rest) == Some(StringItem(item.content, item.rest + rest))
  {
    hide FromBe;
    var head := DecodeHead(s).value;
    HeadIsDelimited(s, rest);
    assert (head.rest + rest)[..head.n] == head.rest[..head.n];
    assert (head.rest + rest)[head.n..] == head.rest[head.n..] + rest;
  }

  lemma HeadIsDelimited(s: seq<Byte>, rest: seq<Byte>)
    requires DecodeHead(s).Some?
    ensures var head := DecodeHead(s).value;
            DecodeHead(s + rest) == Some(Decoded(head.major, head.n, head.rest + rest)) && head.major == s[0] / 32
  {
    hide FromBe;
    var info := s[0] % 32;
    if info < 24 {
      assert (s + rest)[1..] == s[1..] + rest;
    } else {
      var k := if info == 24 then 1 else if info == 25 then 2 else if info == 26 then 4 else 8;
      assert (s + rest)[1..1 + k] == s[1..1 + k] && (s + rest)[1 + k..] == s[1 + k..] + rest;
    }
  }

  lemma UnprotectedReadsBack(keyId: Option<seq<Byte>>, rest: seq<Byte>)
    requires keyId.Some? ==> |keyId.value| < TWO_32
    ensures DecodeUnprotected(C.UnprotectedItem(keyId) + rest) == Some(Parsed(keyId, rest))
  {
    hide Head, DecodeHead, DecodeString, DecodeKeyedBytes;
    match keyId
    case None => HeadReadsBack(5, 0, rest);
    case Some(kid) =>
      var item := Head(0, 4) + BytesItem(kid);
      assert C.UnprotectedItem(keyId) + rest == Head(5, 1) + (item + rest);
      HeadReadsBack(5, 1, item + rest);
      KeyedBytesReadBack(4, kid, rest);
  }

  /** Every message decodes to what it was made of: the tag unless omitted, the header that names ES256, the
      key identifier if there is one, the content of the payload item unless detached, the signature. */
  lemma Sign1ReadsBack(o: C.Sign1Options, keyId: Option<seq<Byte>>, payloadBstr: seq<Byte>, signature: seq<Byte>,
                       rest: seq<Byte>)
    requires C.ValidatePayloadBstr(payloadBstr).Ok? && |signature| < TWO_64
    requires keyId.Some? ==> |keyId.value| < TWO_32
    ensures DecodeSign1(C.Sign1(o, keyId, payloadBstr, signature) + rest)
            == Some(Message(!o.omitCborTag, [0xa1, 0x01, 0x26], keyId,
                            if o.detachedPayload then None else Some(DecodeString(2, payloadBstr).value.content),
                            signature, rest))
  {
    hide Head, DecodeHead, DecodeString, DecodeUnprotected, DecodeContent, C.UnprotectedItem;
    var header, unprotected := C.PROTECTED_HEADERS_ES256, C.UnprotectedItem(keyId);
    var content := if o.detachedPayload then [0xf6] else payloadBstr;
    var afterContent := BytesItem(signature) + rest;
    var afterHeader := unprotected + (content + afterContent);
    var items := BytesItem(header) + afterHeader;
    var body := C.BodyItems(o, keyId, payloadBstr, signature) + rest;
    assert body == Head(4, 4) + items;
    HeadReadsBack(4, 4, items);
    StringReadsBack(2, header, afterHeader);
    UnprotectedReadsBack(keyId, content + afterContent);
    ContentReadsBack(o.detachedPayload, payloadBstr, afterContent);
    StringReadsBack(2, signature, rest);
    if o.omitCborTag {
      assert C.Sign1(o, keyId, payloadBstr, signature) + rest == body;
    } else {
      assert C.Sign1(o, keyId, payloadBstr, signature) + rest == Head(6, 18) + body;
      HeadReadsBack(6, 18, body);
    }
  }

  lemma ContentReadsBack(detached: bool, payloadBstr: seq<Byte>, rest: seq<Byte>)
    requires C.ValidatePayloadBstr(payloadBstr).Ok?
    ensures DecodeContent((if detached then [0xf6] else payloadBstr) + rest)
            == Some(Parsed(if detached then None else Some(DecodeString(2, payloadBstr).value.content), rest))
  {
    if detached {
      assert ([0xf6] + rest)[1..] == rest;
    } else {
      hide DecodeString;
      StringIsDelimited(2, payloadBstr, rest);
      assert [] + rest == rest;
    }
  }

  // ----- The token -------------------------------------------------------------------------

  /** What was signed for a message: the hash of a structure that decodes to the message's own protected
      header, no external data and the message's payload item. */
  ghost predicate SignedFor(c: C.Crypto, m: Message) {
    exists tbs, digest, bstr ::
      && c.hash(tbs) == Ok(digest) && c.sign(digest) == Ok(m.signature)
      && DecodeSigned(tbs) == Some(ToBeSigned(m.protectedHeaders, [], bstr))
      && m.payload.Some? && DecodeString(2, bstr) == Some(StringItem(m.payload.value, []))
  }

  /** Whenever there is a token, its receiver reads one tagged message without a key identifier whose payload
      decodes to the claims in order, and whose signature is that of exactly this header and payload. */
  lemma TokenReadsBack(c: C.Crypto, claims: seq<Claim>)
    requires C.CryptoSized(c) && ClaimsFit(claims) && T.Token(c, claims).Ok?
    ensures var d := DecodeSign1(T.Token(c, claims).value);
            && d.Some? && d.value.tagged && d.value.protectedHeaders == [0xa1, 0x01, 0x26] && d.value.keyId == None
            && d.value.rest == [] && |d.value.signature| == 64
            && d.value.payload.Some?
            && DecodePayload(d.value.payload.value) == Some(Parsed(NormalisedAll(claims), []))
            && SignedFor(c, d.value)
  {
    hide Head, DecodeHead, DecodeString, DecodeSign1, DecodeSigned, DecodePayload, Payload, C.SigStructure, C.Sign1;
    var content := Payload(claims);
    var bstr := BytesItem(content);
    var signature := C.Signed(c, [], bstr).value;
    var m := C.Sign1(T.DEFAULT_OPTIONS, None, bstr, signature);
    assert |content| < TWO_64;
    StringReadsBack(2, content, []);
    assert bstr + [] == bstr && m + [] == m && content + [] == content;
    Sign1ReadsBack(T.DEFAULT_OPTIONS, None, bstr, signature, []);
    PayloadReadsBack(claims, []);
    var tbs := C.SigStructure(C.PROTECTED_HEADERS_ES256, [], bstr);
    SigStructureReadsBack(C.PROTECTED_HEADERS_ES256, [], bstr);
    var digest := c.hash(tbs).value;
    assert c.hash(tbs) == Ok(digest) && c.sign(digest) == Ok(signature);
  }

  /** The token that answers a challenge carries it as its first claim, under label 10. */
  lemma TokenAnswersChallenge(c: C.Crypto, challenge: seq<Byte>, additional: seq<Claim>, room: nat)
    requires C.CryptoSized(c) && ClaimsFit([T.NonceClaim(challenge)] + additional)
    requires T.GetTokenResult(c, challenge, additional, room).Ok?
    ensures var token := T.Token(c, [T.NonceClaim(challenge)] + additional);
            && token.Ok? && T.GetTokenResult(c, challenge, additional, room) == Ok(|token.value|) && |token.value| <= room
            && var d := DecodeSign1(token.value);
               && d.Some? && d.value.payload.Some? && SignedFor(c, d.value)
               && var claims := DecodePayload(d.value.payload.value);
                  && claims.Some? && claims.value.value == [Claim(Nonce, Bytes(challenge))] + NormalisedAll(additional)
                  && Label(Nonce) == 10
  {
    hide DecodeSign1, DecodePayload, SignedFor, T.Token;
    var claims := [T.NonceClaim(challenge)] + additional;
    TokenReadsBack(c, claims);
    assert claims[1..] == additional;
  }

  /** With working cryptography a request is refused as invalid exactly for a challenge of another size than
      32, 48 or 64 bytes or for more than fifteen further claims; any other refusal is for lack of room. */
  lemma RequestRefusedExactly(c: C.Crypto, challenge: seq<Byte>, additional: seq<Claim>, room: nat)
    requires T.CryptoWorks(c)
    ensures var r := T.GetTokenResult(c, challenge, additional, room);
            && (r == Err(InvalidArgument) <==> |challenge| !in {32, 48, 64} || |additional| > 15)
            && (r.Err? ==> r.error in {InvalidArgument, BufferTooSmall})
    ensures T.GetTokenSizeResult(|challenge|, additional) == Err(InvalidArgument) <==>
            |challenge| !in {32, 48, 64} || |additional| > 15
  {
    hide Payload, C.SigStructure, C.Sign1, BytesItem;
    var claims := [T.NonceClaim(challenge)] + additional;
    var bstr := BytesItem(Payload(claims));
    if |bstr| <= T.PAYLOAD_BUF_SIZE {
      T.SigningBufferIsNoLimit(bstr);
    }
  }
}
