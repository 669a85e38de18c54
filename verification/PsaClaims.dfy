/** Attestation claims and their CBOR encoding (psa_token.rs), with a decoder to read them back. */
module PsaClaims {
  import opened Basics
  import opened Cbor
  import opened BootRecords

  /** Claim labels of RFC 9783. */
  datatype IatClaim =
    | Nonce
    | InstanceId
    | ProfileDefinition
    | BootSeed
    | ClientId
    | SecurityLifecycle
    | ImplementationId
    | CertificationReference
    | SwComponents
    | VerificationService

  function Label(k: IatClaim): nat {
    match k
    case Nonce => 10
    case InstanceId => 256
    case ProfileDefinition => 265
    case BootSeed => 268
    case ClientId => 2394
    case SecurityLifecycle => 2395
    case ImplementationId => 2396
    case CertificationReference => 2398
    case SwComponents => 2399
    case VerificationService => 2400
  }

  function ClaimOfLabel(n: nat): Option<IatClaim> {
    if n == 10 then Some(Nonce)
    else if n == 256 then Some(InstanceId)
    else if n == 265 then Some(ProfileDefinition)
    else if n == 268 then Some(BootSeed)
    else if n == 2394 then Some(ClientId)
    else if n == 2395 then Some(SecurityLifecycle)
    else if n == 2396 then Some(ImplementationId)
    else if n == 2398 then Some(CertificationReference)
    else if n == 2399 then Some(SwComponents)
    else if n == 2400 then Some(VerificationService)
    else None
  }

  /** Texts are their UTF-8 bytes. */
  datatype ClaimValue =
    | Bytes(b: seq<Byte>)
    | Text(t: seq<Byte>)
    | Unsigned(u: nat)
    | Signed(s: int)
    | Components(cs: seq<SwComponent>)

  datatype Claim = Claim(key: IatClaim, value: ClaimValue)

  // ----- Encoding --------------------------------------------------------------------------

  function SignedItem(s: int): seq<Byte> {
    if s >= 0 then Head(UNSIGNED, s) else Head(NEGATIVE, -1 - s)
  }

  function TypeItem(t: Option<seq<Byte>>): seq<Byte> {
    match t
    case None => []
    case Some(text) => Head(UNSIGNED, 1) + TextItem(text)
  }

  /** Signer (5), measurement (2) and, if there is one, measurement type (1). */
  function FieldItems(c: SwComponent): seq<Byte> {
    Head(UNSIGNED, 5) + BytesItem(c.signerId)
    + (Head(UNSIGNED, 2) + BytesItem(c.measurementValue) + TypeItem(c.measurementType))
  }

  function ComponentItem(c: SwComponent): seq<Byte> {
    Head(MAP, if c.measurementType.Some? then 3 else 2) + FieldItems(c)
  }

  function ComponentItems(cs: seq<SwComponent>): seq<Byte> {
    if cs == [] then [] else ComponentItem(cs[0]) + ComponentItems(cs[1..])
  }

  function ValueItem(v: ClaimValue): seq<Byte> {
    match v
    case Bytes(b) => BytesItem(b)
    case Text(t) => TextItem(t)
    case Unsigned(u) => Head(UNSIGNED, u)
    case Signed(s) => SignedItem(s)
    case Components(cs) => Head(ARRAY, |cs|) + ComponentItems(cs)
  }

  function ClaimItem(c: Claim): seq<Byte> {
    Head(UNSIGNED, Label(c.key)) + ValueItem(c.value)
  }

  function ClaimItems(cs: seq<Claim>): seq<Byte> {
    if cs == [] then [] else ClaimItem(cs[0]) + ClaimItems(cs[1..])
  }

  function Payload(cs: seq<Claim>): seq<Byte> {
    Head(MAP, |cs|) + ClaimItems(cs)
  }

  lemma {:induction false} ComponentItemsSnoc(cs: seq<SwComponent>, c: SwComponent)
    ensures ComponentItems(cs + [c]) == ComponentItems(cs) + ComponentItem(c)
  {
    hide ComponentItem;
    if cs == [] {
      assert cs + [c] == [c] && [c][1..] == [];
    } else {
      assert (cs + [c])[1..] == cs[1..] + [c];
      ComponentItemsSnoc(cs[1..], c);
    }
  }

  lemma {:induction false} ClaimItemsSnoc(cs: seq<Claim>, c: Claim)
    ensures ClaimItems(cs + [c]) == ClaimItems(cs) + ClaimItem(c)
  {
    hide ClaimItem;
    if cs == [] {
      assert cs + [c] == [c] && [c][1..] == [];
    } else {
      assert (cs + [c])[1..] == cs[1..] + [c];
      ClaimItemsSnoc(cs[1..], c);
    }
  }

  lemma {:induction false} ComponentItemsPrefix(cs: seq<SwComponent>, i: nat)
    requires i <= |cs|
    ensures ComponentItems(cs) == ComponentItems(cs[..i]) + ComponentItems(cs[i..])
  {
    hide ComponentItem;
    if i == 0 {
      assert cs[0..] == cs && cs[..0] == [];
    } else {
      var tail := cs[1..];
      ComponentItemsPrefix(tail, i - 1);
      assert tail[..i - 1] == cs[..i][1..] && tail[i - 1..] == cs[i..] && cs[..i][0] == cs[0];
      var first, middle, end := ComponentItem(cs[0]), ComponentItems(tail[..i - 1]), ComponentItems(tail[i - 1..]);
      assert first + (middle + end) == first + middle + end;
    }
  }

  lemma {:induction false} ClaimItemsPrefix(cs: seq<Claim>, i: nat)
    requires i <= |cs|
    ensures ClaimItems(cs) == ClaimItems(cs[..i]) + ClaimItems(cs[i..])
  {
    hide ClaimItem;
    if i == 0 {
      assert cs[0..] == cs && cs[..0] == [];
    } else {
      var tail := cs[1..];
      ClaimItemsPrefix(tail, i - 1);
      assert tail[..i - 1] == cs[..i][1..] && tail[i - 1..] == cs[i..] && cs[..i][0] == cs[0];
      var first, middle, end := ClaimItem(cs[0]), ClaimItems(tail[..i - 1]), ClaimItems(tail[i - 1..]);
      assert first + (middle + end) == first + middle + end;
    }
  }

  method EncodeKeyedBytes(w: Writer, key: nat, b: seq<Byte>) returns (ok: bool)
    requires w.Valid()
    modifies w, w.buf
    ensures w.Wrote(Head(UNSIGNED, key) + BytesItem(b), ok)
  {
    hide Head, BytesItem, Effect;
    ghost var start := w.Now();
    ok := w.PutHead(UNSIGNED, key);
    ghost var first, mid := ok, w.Now();
    if ok {
      ok := w.PutBytes(b);
    }
    Joined(start, Head(UNSIGNED, key), first, mid, BytesItem(b), ok, w.Now());
  }

  method EncodeType(w: Writer, t: Option<seq<Byte>>) returns (ok: bool)
    requires w.Valid()
    modifies w, w.buf
    ensures w.Wrote(TypeItem(t), ok)
  {
    hide Head, TextItem, Effect;
    ghost var start := w.Now();
    ok := true;
    if t.Some? {
      ok := w.PutHead(UNSIGNED, 1);
      ghost var first, mid := ok, w.Now();
      if ok {
        ok := w.PutText(t.value);
      }
      Joined(start, Head(UNSIGNED, 1), first, mid, TextItem(t.value), ok, w.Now());
    } else {
      NothingWritten(start);
    }
  }

  /** Measurement, and measurement type if there is one. */
  method EncodeMeasurement(w: Writer, c: SwComponent) returns (ok: bool)
    requires w.Valid()
    modifies w, w.buf
    ensures w.Wrote(Head(UNSIGNED, 2) + BytesItem(c.measurementValue) + TypeItem(c.measurementType), ok)
  {
    hide Head, BytesItem, TypeItem, Effect;
    ghost var start := w.Now();
    ok := EncodeKeyedBytes(w, 2, c.measurementValue);
    ghost var first, mid := ok, w.Now();
    if ok {
      ok := EncodeType(w, c.measurementType);
    }
    Joined(start, Head(UNSIGNED, 2) + BytesItem(c.measurementValue), first, mid, TypeItem(c.measurementType), ok, w.Now());
  }

  method EncodeFields(w: Writer, c: SwComponent) returns (ok: bool)
    requires w.Valid()
    modifies w, w.buf
    ensures w.Wrote(FieldItems(c), ok)
  {
    hide Head, BytesItem, TypeItem, Effect;
    ghost var start := w.Now();
    ok := EncodeKeyedBytes(w, 5, c.signerId);
    ghost var first, mid := ok, w.Now();
    if ok {
      ok := EncodeMeasurement(w, c);
    }
    Joined(start, Head(UNSIGNED, 5) + BytesItem(c.signerId), first, mid,
           Head(UNSIGNED, 2) + BytesItem(c.measurementValue) + TypeItem(c.measurementType), ok, w.Now());
  }

  method EncodeComponent(w: Writer, c: SwComponent) returns (ok: bool)
    requires w.Valid()
    modifies w, w.buf
    ensures w.Wrote(ComponentItem(c), ok)
  {
    hide Head, FieldItems, Effect;
    ghost var start := w.Now();
    var n := if c.measurementType.Some? then 3 else 2;
    ok := w.PutHead(MAP, n);
    ghost var first, mid := ok, w.Now();
    if ok {
      ok := EncodeFields(w, c);
    }
    Joined(start, Head(MAP, n), first, mid, FieldItems(c), ok, w.Now());
  }

  method EncodeSwComponents(w: Writer, cs: seq<SwComponent>) returns (ok: bool)
    requires w.Valid()
    modifies w, w.buf
    ensures w.Wrote(Head(ARRAY, |cs|) + ComponentItems(cs), ok)
  {
    hide Head, ComponentItem, ComponentItems, Effect;
    ghost var start := w.Now();
    ok := w.PutHead(ARRAY, |cs|);
    ghost var mid := w.Now();
    NoComponents(start, Head(ARRAY, |cs|), cs, ok, mid);
    if !ok {
      return;
    }
    for i := 0 to |cs|
      invariant w.Valid() && ok && Effect(start, Head(ARRAY, |cs|) + ComponentItems(cs[..i]), true, w.Now())
    {
      ghost var here := w.Now();
      ok := EncodeComponent(w, cs[i]);
      NextComponent(start, Head(ARRAY, |cs|), cs, i, here, ok, w.Now());
      if !ok {
        return;
      }
    }
    assert cs[..|cs|] == cs;
  }

  lemma NoComponents(a: Snapshot, head: seq<Byte>, cs: seq<SwComponent>, ok: bool, b: Snapshot)
    requires Effect(a, head, ok, b)
    ensures ok ==> Effect(a, head + ComponentItems(cs[..0]), true, b)
    ensures !ok ==> Effect(a, head + ComponentItems(cs), false, b)
  {
    assert head + ComponentItems(cs[..0]) == head;
    if !ok {
      Joined(a, head, false, b, ComponentItems(cs), false, b);
    }
  }

  /** One more component written, or the whole list refused with it. */
  lemma NextComponent(a: Snapshot, head: seq<Byte>, cs: seq<SwComponent>, i: nat, b: Snapshot, ok: bool, c: Snapshot)
    requires i < |cs| && Effect(a, head + ComponentItems(cs[..i]), true, b) && Effect(b, ComponentItem(cs[i]), ok, c)
    ensures ok ==> Effect(a, head + ComponentItems(cs[..i + 1]), true, c)
    ensures !ok ==> Effect(a, head + ComponentItems(cs), false, c)
  {
    hide ComponentItem, ComponentItems, Effect;
    ComponentItemsSnoc(cs[..i], cs[i]);
    assert cs[..i] + [cs[i]] == cs[..i + 1];
    ComponentItemsPrefix(cs, i + 1);
    NextItem(a, head, ComponentItems(cs[..i]), ComponentItem(cs[i]), ComponentItems(cs[..i + 1]), ComponentItems(cs[i + 1..]),
             ComponentItems(cs), b, ok, c);
  }

  method EncodeClaimValue(w: Writer, v: ClaimValue) returns (ok: bool)
    requires w.Valid()
    modifies w, w.buf
    ensures w.Wrote(ValueItem(v), ok)
  {
    hide Head, BytesItem, TextItem, ComponentItems;
    match v
    case Bytes(b) => ok := w.PutBytes(b);
    case Text(t) => ok := w.PutText(t);
    case Unsigned(u) => ok := w.PutHead(UNSIGNED, u);
    case Signed(s) =>
      if s >= 0 {
        ok := w.PutHead(UNSIGNED, s);
      } else {
        ok := w.PutHead(NEGATIVE, -1 - s);
      }
    case Components(cs) => ok := EncodeSwComponents(w, cs);
  }

  method EncodeClaim(w: Writer, c: Claim) returns (ok: bool)
    requires w.Valid()
    modifies w, w.buf
    ensures w.Wrote(ClaimItem(c), ok)
  {
    hide Head, ValueItem, Effect;
    ghost var start := w.Now();
    ok := w.PutHead(UNSIGNED, Label(c.key));
    ghost var first, mid := ok, w.Now();
    if ok {
      ok := EncodeClaimValue(w, c.value);
    }
    Joined(start, Head(UNSIGNED, Label(c.key)), first, mid, ValueItem(c.value), ok, w.Now());
  }

  method EncodePayloadTo(w: Writer, cs: seq<Claim>) returns (ok: bool)
    requires w.Valid()
    modifies w, w.buf
    ensures w.Wrote(Payload(cs), ok)
  {
    hide Head, ClaimItem, ClaimItems, Effect;
    ghost var start := w.Now();
    ok := w.PutHead(MAP, |cs|);
    ghost var mid := w.Now();
    NoClaims(start, Head(MAP, |cs|), cs, ok, mid);
    if !ok {
      return;
    }
    for i := 0 to |cs|
      invariant w.Valid() && ok && Effect(start, Head(MAP, |cs|) + ClaimItems(cs[..i]), true, w.Now())
    {
      ghost var here := w.Now();
      ok := EncodeClaim(w, cs[i]);
      NextClaim(start, Head(MAP, |cs|), cs, i, here, ok, w.Now());
      if !ok {
        return;
      }
    }
    assert cs[..|cs|] == cs;
  }

  lemma NoClaims(a: Snapshot, head: seq<Byte>, cs: seq<Claim>, ok: bool, b: Snapshot)
    requires Effect(a, head, ok, b)
    ensures ok ==> Effect(a, head + ClaimItems(cs[..0]), true, b)
    ensures !ok ==> Effect(a, head + ClaimItems(cs), false, b)
  {
    assert head + ClaimItems(cs[..0]) == head;
    if !ok {
      Joined(a, head, false, b, ClaimItems(cs), false, b);
    }
  }

  /** One more claim written, or the whole list refused with it. */
  lemma NextClaim(a: Snapshot, head: seq<Byte>, cs: seq<Claim>, i: nat, b: Snapshot, ok: bool, c: Snapshot)
    requires i < |cs| && Effect(a, head + ClaimItems(cs[..i]), true, b) && Effect(b, ClaimItem(cs[i]), ok, c)
    ensures ok ==> Effect(a, head + ClaimItems(cs[..i + 1]), true, c)
    ensures !ok ==> Effect(a, head + ClaimItems(cs), false, c)
  {
    hide ClaimItem, ClaimItems, Effect;
    ClaimItemsSnoc(cs[..i], cs[i]);
    assert cs[..i] + [cs[i]] == cs[..i + 1];
    ClaimItemsPrefix(cs, i + 1);
    NextItem(a, head, ClaimItems(cs[..i]), ClaimItem(cs[i]), ClaimItems(cs[..i + 1]), ClaimItems(cs[i + 1..]),
             ClaimItems(cs), b, ok, c);
  }

  // ----- Decoding --------------------------------------------------------------------------

  datatype Parsed<T> = Parsed(value: T, rest: seq<Byte>)

  function DecodeTypeOf(s: seq<Byte>): Option<Parsed<Option<seq<Byte>>>> {
    match DecodeHead(s)
    case Some(Decoded(0, 1, rest)) =>
      (match DecodeString(TEXT, rest)
       case Some(item) => Some(Parsed(Some(item.content), item.rest))
       case None => None)
    case _ => None
  }

  /** A byte string under an expected small key. */
  function DecodeKeyedBytes(key: nat, s: seq<Byte>): Option<Parsed<seq<Byte>>> {
    match DecodeHead(s)
    case Some(Decoded(major, n, rest)) =>
      if major != UNSIGNED || n != key then None
      else (match DecodeString(BYTES, rest)
            case Some(item) => Some(Parsed(item.content, item.rest))
            case None => None)
    case None => None
  }

  function DecodeComponent(s: seq<Byte>): Option<Parsed<SwComponent>> {
    match DecodeHead(s)
    case None => None
    case Some(Decoded(major, n, rest)) =>
      if major != MAP || (n != 2 && n != 3) then None
      else match DecodeKeyedBytes(5, rest)
        case None => None
        case Some(signer) =>
          match DecodeKeyedBytes(2, signer.rest)
          case None => None
          case Some(measure) =>
            if n == 2 then Some(Parsed(SwComponent(None, measure.value, signer.value), measure.rest))
            else match DecodeTypeOf(measure.rest)
              case None => None
              case Some(kind) => Some(Parsed(SwComponent(kind.value, measure.value, signer.value), kind.rest))
  }

  function DecodeComponents(s: seq<Byte>, n: nat): Option<Parsed<seq<SwComponent>>>
    decreases n
  {
    if n == 0 then Some(Parsed([], s))
    else match DecodeComponent(s)
      case None => None
      case Some(first) =>
        match DecodeComponents(first.rest, n - 1)
        case None => None
        case Some(others) => Some(Parsed([first.value] + others.value, others.rest))
  }

  function DecodeValue(s: seq<Byte>): Option<Parsed<ClaimValue>> {
    match DecodeHead(s)
    case None => None
    case Some(Decoded(major, n, rest)) =>
      if major == UNSIGNED then Some(Parsed(Unsigned(n), rest))
      else if major == NEGATIVE then Some(Parsed(Signed(-1 - n), rest))
      else if (major == BYTES || major == TEXT) && n <= |rest| then
        Some(Parsed(if major == BYTES then Bytes(rest[..n]) else Text(rest[..n]), rest[n..]))
      else if major == ARRAY then
        match DecodeComponents(rest, n)
        case None => None
        case Some(cs) => Some(Parsed(Components(cs.value), cs.rest))
      else None
  }

  function DecodeClaims(s: seq<Byte>, n: nat): Option<Parsed<seq<Claim>>>
    decreases n
  {
    if n == 0 then Some(Parsed([], s))
    else match DecodeHead(s)
      case None => None
      case Some(Decoded(major, key, afterKey)) =>
        if major != UNSIGNED || ClaimOfLabel(key).None? then None
        else match DecodeValue(afterKey)
          case None => None
          case Some(v) =>
            match DecodeClaims(v.rest, n - 1)
            case None => None
            case Some(others) =>
              Some(Parsed([Claim(ClaimOfLabel(key).value, v.value)] + others.value, others.rest))
  }

  function DecodePayload(s: seq<Byte>): Option<Parsed<seq<Claim>>> {
    match DecodeHead(s)
    case None => None
    case Some(Decoded(major, n, rest)) => if major == MAP then DecodeClaims(rest, n) else None
  }

  // ----- Round trip ------------------------------------------------------------------------

  ghost predicate ComponentFits(c: SwComponent) {
    && |c.signerId| < TWO_32 && |c.measurementValue| < TWO_32
    && (c.measurementType.Some? ==> |c.measurementType.value| < TWO_32)
  }

  /** Values within the types of the source: slices and strings of the address space, 64-bit numbers. */
  ghost predicate ValueFits(v: ClaimValue) {
    match v
    case Bytes(b) => |b| < TWO_32
    case Text(t) => |t| < TWO_32
    case Unsigned(u) => u < TWO_64
    case Signed(s) => -0x8000_0000_0000_0000 <= s < 0x8000_0000_0000_0000
    case Components(cs) => |cs| < TWO_32 && forall c :: c in cs ==> ComponentFits(c)
  }

  ghost predicate ClaimsFit(cs: seq<Claim>) {
    |cs| < TWO_32 && forall c :: c in cs ==> ValueFits(c.value)
  }

  /** Non-negative signed values share their encoding with unsigned ones. */
  function Normalised(v: ClaimValue): ClaimValue {
    match v
    case Signed(s) => if s >= 0 then Unsigned(s) else v
    case _ => v
  }

  function NormalisedAll(cs: seq<Claim>): (r: seq<Claim>)
    ensures |r| == |cs|
    ensures forall i :: 0 <= i < |cs| ==> r[i].key == cs[i].key && r[i].value == Normalised(cs[i].value)
  {
    if cs == [] then [] else [Claim(cs[0].key, Normalised(cs[0].value))] + NormalisedAll(cs[1..])
  }

  lemma KeyedBytesReadBack(key: nat, b: seq<Byte>, rest: seq<Byte>)
    requires key < TWO_64 && |b| < TWO_32
    ensures DecodeKeyedBytes(key, Head(UNSIGNED, key) + BytesItem(b) + rest) == Some(Parsed(b, rest))
  {
    hide Head, DecodeHead, DecodeString;
    assert Head(UNSIGNED, key) + BytesItem(b) + rest == Head(UNSIGNED, key) + (BytesItem(b) + rest);
    HeadReadsBack(UNSIGNED, key, BytesItem(b) + rest);
    StringReadsBack(BYTES, b, rest);
  }

  lemma TypeReadsBack(t: seq<Byte>, rest: seq<Byte>)
    requires |t| < TWO_32
    ensures DecodeTypeOf(TypeItem(Some(t)) + rest) == Some(Parsed(Some(t), rest))
  {
    hide Head, DecodeHead, DecodeString;
    assert TypeItem(Some(t)) + rest == Head(UNSIGNED, 1) + (TextItem(t) + rest);
    HeadReadsBack(UNSIGNED, 1, TextItem(t) + rest);
    StringReadsBack(TEXT, t, rest);
  }

  lemma ComponentReadsBack(c: SwComponent, rest: seq<Byte>)
    requires ComponentFits(c)
    ensures DecodeComponent(ComponentItem(c) + rest) == Some(Parsed(c, rest))
  {
    hide Head, DecodeHead, DecodeKeyedBytes, DecodeTypeOf, BytesItem, TypeItem;
    var n := if c.measurementType.Some? then 3 else 2;
    var signer := Head(UNSIGNED, 5) + BytesItem(c.signerId);
    var measure := Head(UNSIGNED, 2) + BytesItem(c.measurementValue);
    var kind := TypeItem(c.measurementType);
    assert ComponentItem(c) + rest == Head(MAP, n) + (signer + (measure + (kind + rest)));
    HeadReadsBack(MAP, n, signer + (measure + (kind + rest)));
    KeyedBytesReadBack(5, c.signerId, measure + (kind + rest));
    KeyedBytesReadBack(2, c.measurementValue, kind + rest);
    if c.measurementType.Some? {
      TypeReadsBack(c.measurementType.value, rest);
    } else {
      assert kind + rest == rest by { NoType(); }
    }
  }

  lemma NoType()
    ensures TypeItem(None) == []
  {
  }

  lemma {:induction false} ComponentsReadBack(cs: seq<SwComponent>, rest: seq<Byte>)
    requires forall c :: c in cs ==> ComponentFits(c)
    ensures DecodeComponents(ComponentItems(cs) + rest, |cs|) == Some(Parsed(cs, rest))
  {
    hide DecodeComponent, ComponentItem, ComponentFits;
    if cs == [] {
      assert [] + rest == rest;
    } else {
      assert ComponentItems(cs) + rest == ComponentItem(cs[0]) + (ComponentItems(cs[1..]) + rest);
      ComponentReadsBack(cs[0], ComponentItems(cs[1..]) + rest);
      ComponentsReadBack(cs[1..], rest);
      assert [cs[0]] + cs[1..] == cs;
    }
  }

  lemma ValueReadsBack(v: ClaimValue, rest: seq<Byte>)
    requires ValueFits(v)
    ensures DecodeValue(ValueItem(v) + rest) == Some(Parsed(Normalised(v), rest))
  {
    hide Head, DecodeHead, DecodeComponents, ComponentItems;
    match v
    case Bytes(b) =>
      assert ValueItem(v) + rest == Head(BYTES, |b|) + (b + rest);
      HeadReadsBack(BYTES, |b|, b + rest);
      assert (b + rest)[..|b|] == b && (b + rest)[|b|..] == rest;
    case Text(t) =>
      assert ValueItem(v) + rest == Head(TEXT, |t|) + (t + rest);
      HeadReadsBack(TEXT, |t|, t + rest);
      assert (t + rest)[..|t|] == t && (t + rest)[|t|..] == rest;
    case Unsigned(u) => HeadReadsBack(UNSIGNED, u, rest);
    case Signed(s) => HeadReadsBack(if s >= 0 then UNSIGNED else NEGATIVE, if s >= 0 then s else -1 - s, rest);
    case Components(cs) =>
      assert ValueItem(v) + rest == Head(ARRAY, |cs|) + (ComponentItems(cs) + rest);
      HeadReadsBack(ARRAY, |cs|, ComponentItems(cs) + rest);
      ComponentsReadBack(cs, rest);
  }

  lemma {:induction false} ClaimsReadBack(cs: seq<Claim>, rest: seq<Byte>)
    requires forall c :: c in cs ==> ValueFits(c.value)
    ensures DecodeClaims(ClaimItems(cs) + rest, |cs|) == Some(Parsed(NormalisedAll(cs), rest))
  {
    hide Head, DecodeHead, DecodeValue, ValueItem, ValueFits, Normalised;
    if cs == [] {
      assert [] + rest == rest;
    } else {
      var c := cs[0];
      var after := ClaimItems(cs[1..]) + rest;
      assert ClaimItems(cs) + rest == Head(UNSIGNED, Label(c.key)) + (ValueItem(c.value) + after);
      HeadReadsBack(UNSIGNED, Label(c.key), ValueItem(c.value) + after);
      ValueReadsBack(c.value, after);
      ClaimsReadBack(cs[1..], rest);
    }
  }

  /** Decoding an encoded claim list gives the same claims in the same order and consumes exactly
      the encoded bytes. */
  lemma PayloadReadsBack(cs: seq<Claim>, rest: seq<Byte>)
    requires ClaimsFit(cs)
    ensures DecodePayload(Payload(cs) + rest) == Some(Parsed(NormalisedAll(cs), rest))
  {
    hide Head, DecodeHead, DecodeClaims, ClaimItems;
    assert Payload(cs) + rest == Head(MAP, |cs|) + (ClaimItems(cs) + rest);
    HeadReadsBack(MAP, |cs|, ClaimItems(cs) + rest);
    ClaimsReadBack(cs, rest);
  }
}
