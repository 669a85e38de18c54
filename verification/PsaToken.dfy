/** The initial attestation token: building, signing and predicting the size of it (psa_token.rs), and
    the requests of the attestation service on top (attest_service.rs). */
module PsaTokens {
  import opened Basics
  import opened Cbor
  import opened PsaClaims
  import C = Cose

  const PAYLOAD_BUF_SIZE: nat := 512
  const DEFAULT_OPTIONS := C.Sign1Options(false, false)

  function MapCoseError(e: C.CoseSign1Error): StatusCode {
    if e == C.CoseSign1Error.BufferTooSmall then BufferTooSmall else InvalidArgument
  }

  /** The token for a list of claims, before it is known whether it fits the caller's buffer. */
  function Token(c: C.Crypto, claims: seq<Claim>): Result<seq<Byte>, StatusCode> {
    var bstr := BytesItem(Payload(claims));
    if |bstr| > PAYLOAD_BUF_SIZE then Err(BufferTooSmall)
    else match C.Signed(c, [], bstr)
      case Err(e) => Err(MapCoseError(e))
      case Ok(signature) => Ok(C.Sign1(DEFAULT_OPTIONS, None, bstr, signature))
  }

  function TokenResult(c: C.Crypto, claims: seq<Claim>, room: nat): Result<nat, StatusCode> {
    match Token(c, claims)
    case Err(e) => Err(e)
    case Ok(m) => if |m| <= room then Ok(|m|) else Err(BufferTooSmall)
  }

  method EncodePayload(claims: seq<Claim>, out: array<Byte>) returns (r: Result<nat, StatusCode>)
    modifies out
    ensures r == if |Payload(claims)| <= out.Length then Ok(|Payload(claims)|) else Err(BufferTooSmall)
    ensures r.Ok? ==> out[..r.value] == Payload(claims)
  {
    hide Payload;
    var w := new Writer.Cursor(out);
    assert out[..0] == [];
    var ok := EncodePayloadTo(w, claims);
    if !ok {
      return Err(BufferTooSmall);
    }
    return Ok(w.pos);
  }

  method EncodeInitialAttestationToken(c: C.Crypto, claims: seq<Claim>, token: array<Byte>)
    returns (r: Result<nat, StatusCode>)
    modifies token
    ensures r == TokenResult(c, claims, token.Length)
    ensures r.Ok? ==> token[..r.value] == Token(c, claims).value
  {
    hide Payload, Head, C.Signed, C.Sign1, BeBytes;
    var buf := new Byte[PAYLOAD_BUF_SIZE](i => 0);
    var payloadLen := EncodePayload(claims, buf);
    if payloadLen.Err? {
      return Err(payloadLen.error);
    }
    var bstrLen := C.EncodePayloadBstrInPlace(payloadLen.value, buf);
    if bstrLen.Err? {
      return Err(MapCoseError(bstrLen.error));
    }
    var bstr := buf[..bstrLen.value];
    C.WrappedPayloadIsValid(Payload(claims));
    var encoded := C.EncodeFromPayloadBstr(c, DEFAULT_OPTIONS, None, [], bstr, token);
    match encoded
    case Err(e) => r := Err(MapCoseError(e));
    case Ok(n) => r := Ok(n);
  }

  /** The prediction: payload, its head, and 73 bytes around them. */
  function PredictedSize(claims: seq<Claim>): Result<nat, StatusCode> {
    var n := Saturated(|Payload(claims)|);
    var head := if n < 24 then 1 else if n < 0x100 then 2 else if n < 0x1_0000 then 3 else 5;
    if n + (head + 73) > USIZE_MAX then Err(BufferTooSmall) else Ok(n + (head + 73))
  }

  method ComputeInitialAttestationTokenSize(claims: seq<Claim>) returns (r: Result<nat, StatusCode>)
    ensures r == PredictedSize(claims)
  {
    hide Payload;
    var counter := new Writer.SizeCounter();
    var ok := EncodePayloadTo(counter, claims);
    if !ok {
      return Err(BufferTooSmall);
    }
    var n := counter.pos;
    var head := if n < 24 then 1 else if n < 0x100 then 2 else if n < 0x1_0000 then 3 else 5;
    if n + (head + 73) > USIZE_MAX {
      return Err(BufferTooSmall);
    }
    return Ok(n + (head + 73));
  }

  /** A payload that fits its buffer fits the signing buffer as well. */
  lemma SigningBufferIsNoLimit(bstr: seq<Byte>)
    requires |bstr| <= PAYLOAD_BUF_SIZE
    ensures |C.SigStructure(C.PROTECTED_HEADERS_ES256, [], bstr)| <= C.SIG_STRUCTURE_MAX_SIZE
  {
  }

  lemma SignedMessageLength(bstr: seq<Byte>, signature: seq<Byte>)
    requires |signature| == 64
    ensures |C.Sign1(DEFAULT_OPTIONS, None, bstr, signature)| == |bstr| + 73
  {
  }

  /** For any claims, also too many for a token: the predicted size is the length of the signed message that
      would hold them, unless that does not fit a word. */
  lemma PredictionForAnyPayload(claims: seq<Claim>, signature: seq<Byte>)
    requires |signature| == 64
    ensures var n := |C.Sign1(DEFAULT_OPTIONS, None, BytesItem(Payload(claims)), signature)|;
            if |Payload(claims)| <= 0xFFFF_FFFF && n <= 0xFFFF_FFFF then PredictedSize(claims) == Ok(n)
            else PredictedSize(claims) == Err(BufferTooSmall)
  {
    hide Payload, C.Sign1;
    var payload := Payload(claims);
    SignedMessageLength(BytesItem(payload), signature);
    assert |BytesItem(payload)| == 1 + ExtraBytes(|payload|) + |payload|;
  }

  /** Whenever there is a token, its length is the predicted size. */
  lemma PredictionIsExact(c: C.Crypto, claims: seq<Claim>)
    requires C.CryptoSized(c) && Token(c, claims).Ok?
    ensures PredictedSize(claims) == Ok(|Token(c, claims).value|)
  {
    hide Payload, C.SigStructure, C.Sign1;
    var bstr := BytesItem(Payload(claims));
    var signature := C.Signed(c, [], bstr).value;
    SignedMessageLength(bstr, signature);
    assert |bstr| == 1 + ExtraBytes(|Payload(claims)|) + |Payload(claims)|;
  }

  /** Hashing and signing succeed. */
  ghost predicate CryptoWorks(c: C.Crypto) {
    C.CryptoSized(c) && (forall m :: c.hash(m).Ok?) && (forall d :: c.sign(d).Ok?)
  }

  /** With working cryptography, encoding succeeds exactly when the payload and its head fit 512
      bytes and the predicted size fits the token buffer. */
  lemma EncodingSucceedsExactly(c: C.Crypto, claims: seq<Claim>, room: nat)
    requires CryptoWorks(c)
    ensures TokenResult(c, claims, room).Ok? <==>
            && |BytesItem(Payload(claims))| <= 512
            && PredictedSize(claims).Ok? && PredictedSize(claims).value <= room
  {
    hide Payload, C.SigStructure, C.Sign1;
    var bstr := BytesItem(Payload(claims));
    if |bstr| <= PAYLOAD_BUF_SIZE {
      SigningBufferIsNoLimit(bstr);
      assert Token(c, claims).Ok?;
      PredictionIsExact(c, claims);
    }
  }

  // ----- The attestation service -----------------------------------------------------------

  const MAX_TOTAL_CLAIMS: nat := 16

  predicate ChallengeSizeIsSupported(n: nat) {
    n == 32 || n == 48 || n == 64
  }

  function NonceClaim(challenge: seq<Byte>): Claim {
    Claim(Nonce, Bytes(challenge))
  }

  method BuildClaims(challenge: seq<Byte>, additional: seq<Claim>) returns (r: Result<seq<Claim>, StatusCode>)
    ensures r == if |additional| + 1 > MAX_TOTAL_CLAIMS then Err(InvalidArgument)
                 else Ok([NonceClaim(challenge)] + additional)
  {
    var total := |additional| + 1;
    if total > MAX_TOTAL_CLAIMS {
      return Err(InvalidArgument);
    }
    var buf := new Claim[MAX_TOTAL_CLAIMS](i => NonceClaim([]));
    buf[0] := NonceClaim(challenge);
    forall i | 0 <= i < |additional| {
      buf[1 + i] := additional[i];
    }
    assert buf[..total] == [NonceClaim(challenge)] + additional;
    return Ok(buf[..total]);
  }

  function GetTokenResult(c: C.Crypto, challenge: seq<Byte>, additional: seq<Claim>, room: nat): Result<nat, StatusCode> {
    if !ChallengeSizeIsSupported(|challenge|) || |additional| + 1 > MAX_TOTAL_CLAIMS then Err(InvalidArgument)
    else TokenResult(c, [NonceClaim(challenge)] + additional, room)
  }

  /** On success the token is at the start of the buffer and the rest of the buffer is zero. */
  method InitialAttestGetToken(c: C.Crypto, challenge: seq<Byte>, additional: seq<Claim>, token: array<Byte>)
    returns (r: Result<nat, StatusCode>)
    modifies token
    ensures r == GetTokenResult(c, challenge, additional, token.Length)
    ensures r.Ok? ==>
              && r.value <= token.Length
              && token[..r.value] == Token(c, [NonceClaim(challenge)] + additional).value
              && forall i :: r.value <= i < token.Length ==> token[i] == 0
  {
    hide Token;
    if !ChallengeSizeIsSupported(|challenge|) {
      return Err(InvalidArgument);
    }
    var claims := BuildClaims(challenge, additional);
    if claims.Err? {
      return Err(claims.error);
    }
    r := EncodeInitialAttestationToken(c, claims.value, token);
    if r.Ok? {
      ghost var m := token[..r.value];
      forall i | r.value <= i < token.Length {
        token[i] := 0;
      }
      assert token[..r.value] == m;
    }
  }

  function GetTokenSizeResult(challengeSize: nat, additional: seq<Claim>): Result<nat, StatusCode> {
    if !ChallengeSizeIsSupported(challengeSize) || |additional| + 1 > MAX_TOTAL_CLAIMS then Err(InvalidArgument)
    else PredictedSize([NonceClaim(seq(challengeSize, i => 0))] + additional)
  }

  method InitialAttestGetTokenSize(challengeSize: nat, additional: seq<Claim>) returns (r: Result<nat, StatusCode>)
    ensures r == GetTokenSizeResult(challengeSize, additional)
  {
    hide PredictedSize;
    if !ChallengeSizeIsSupported(challengeSize) {
      return Err(InvalidArgument);
    }
    var dummy := seq(64, i => 0);
    assert dummy[..challengeSize] == seq(challengeSize, i => 0);
    var claims := BuildClaims(dummy[..challengeSize], additional);
    if claims.Err? {
      return Err(claims.error);
    }
    r := ComputeInitialAttestationTokenSize(claims.value);
  }

  /** The size of a token does not depend on what the challenge is, only on how long it is. */
  lemma SizeSeesChallengeLength(a: seq<Byte>, b: seq<Byte>, more: seq<Claim>)
    requires |a| == |b|
    ensures |Payload([NonceClaim(a)] + more)| == |Payload([NonceClaim(b)] + more)|
  {
    assert ([NonceClaim(a)] + more)[1..] == more && ([NonceClaim(b)] + more)[1..] == more;
  }

  /** For equal claim lists and challenge sizes, a token that is produced has the size that the size
      request answers, and the size request refuses exactly when the token request refuses its input. */
  lemma TokenSizeAgrees(c: C.Crypto, challenge: seq<Byte>, additional: seq<Claim>, room: nat)
    requires C.CryptoSized(c)
    ensures GetTokenResult(c, challenge, additional, room).Ok? ==>
              GetTokenSizeResult(|challenge|, additional) == GetTokenResult(c, challenge, additional, room)
    ensures GetTokenSizeResult(|challenge|, additional) == Err(InvalidArgument) ==>
              GetTokenResult(c, challenge, additional, room) == Err(InvalidArgument)
  {
    hide Payload, C.Sign1, C.SigStructure;
    SizeSeesChallengeLength(challenge, seq(|challenge|, i => 0), additional);
    var claims := [NonceClaim(challenge)] + additional;
    if Token(c, claims).Ok? {
      PredictionIsExact(c, claims);
    }
  }
}
