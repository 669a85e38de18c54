/** The memory protection unit: region allocation into a configuration and programming it
    (mpu.rs). Register fields are packed arithmetically; 32-bit sums wrap. */
module Mpus {
  import opened Basics

  datatype Permissions = ReadWriteExecute | ReadWriteXN | ReadXN | ReadExecute | ReadPrivXN | ReadPrivExecute

  datatype MpuError = AddressNotAligned | SizeTooSmall | NoRegionsAvailable | RegionOverlap

  /** The AP field (bits 1 and 2) and the XN field (bit 0) as the source pairs them. */
  function AccessBits(p: Permissions): Word {
    match p
    case ReadWriteExecute => 0x3
    case ReadWriteXN => 0x2
    case ReadXN => 0x7
    case ReadExecute => 0x6
    case ReadPrivXN => 0x5
    case ReadPrivExecute => 0x4
  }

  datatype RegionConfig = RegionConfig(rbar: Word, rlar: Word)

  type MpuConfig = seq<Option<RegionConfig>>

  datatype RegionRequest = RegionRequest(base: Word, size: Word, perm: Permissions)

  /** End address, limit field and register pair, with 32-bit wrap-around. */
  function EndOf(r: RegionRequest): Word {
    Wrap(r.base + r.size)
  }

  /** PXN is bit 4 of RLAR, ENABLE is bit 0 and the attribute index is zero. */
  const RLAR_FLAGS: Word := 0x11

  function Pack(r: RegionRequest): RegionConfig {
    RegionConfig(Floor32(r.base) + AccessBits(r.perm), Floor32(Wrap(EndOf(r) - 1)) + RLAR_FLAGS)
  }

  predicate Collides(r: RegionRequest, existing: RegionConfig) {
    r.base < Wrap(Floor32(existing.rlar) + 0x20) && Floor32(existing.rbar) < EndOf(r)
  }

  predicate CollidesAny(r: RegionRequest, config: MpuConfig) {
    exists i :: 0 <= i < |config| && config[i].Some? && Collides(r, config[i].value)
  }

  /** The error that refuses a request before any slot is looked for. */
  function Refusal(r: RegionRequest, config: MpuConfig): Option<MpuError> {
    if r.base % 32 != 0 then Some(AddressNotAligned)
    else if r.size < 32 then Some(SizeTooSmall)
    else if EndOf(r) % 32 != 0 then Some(AddressNotAligned)
    else if CollidesAny(r, config) then Some(RegionOverlap)
    else None
  }

  function FirstFree(config: MpuConfig): (k: nat)
    ensures k <= |config|
    ensures forall i :: 0 <= i < k ==> config[i].Some?
    ensures k < |config| ==> config[k].None?
  {
    if config == [] then 0
    else if config[0].None? then 0
    else 1 + FirstFree(config[1..])
  }

  function Allocate(r: RegionRequest, config: MpuConfig): Result<MpuConfig, MpuError> {
    if Refusal(r, config).Some? then Err(Refusal(r, config).value)
    else if FirstFree(config) == |config| then Err(NoRegionsAvailable)
    else Ok(config[FirstFree(config) := Some(Pack(r))])
  }

  /** A refused allocation leaves the configuration alone; callers ignore the error. */
  function AllocateOrSkip(r: RegionRequest, config: MpuConfig): (after: MpuConfig)
    ensures |after| == |config|
  {
    match Allocate(r, config)
    case Ok(c) => c
    case Err(_) => config
  }

  function AllocateAll(rs: seq<RegionRequest>, config: MpuConfig): (after: MpuConfig)
    ensures |after| == |config|
  {
    if rs == [] then config else AllocateOrSkip(Last(rs), AllocateAll(rs[..|rs| - 1], config))
  }

  function EmptyConfig(n: nat): MpuConfig {
    seq(n, i => None)
  }

  /** What the region registers hold once a configuration has been programmed. */
  function Programmed(config: MpuConfig): seq<RegionConfig> {
    seq(|config|, i requires 0 <= i < |config| =>
      match config[i] case Some(rc) => rc case None => RegionConfig(0, 0))
  }

  class Mpu {
    const n: nat
    const rbar: array<Word>
    const rlar: array<Word>
    var rnr: nat
    var mair0: Word
    var enabled: bool

    ghost predicate Valid()
      reads this
    {
      rbar.Length == n && rlar.Length == n && rbar != rlar
    }

    ghost function Regions(): seq<RegionConfig>
      requires Valid()
      reads this, rbar, rlar
    {
      seq(n, i requires 0 <= i < n reads this, rbar, rlar => RegionConfig(rbar[i], rlar[i]))
    }

    constructor (size: nat)
      ensures Valid() && n == size && fresh(rbar) && fresh(rlar)
    {
      n := size;
      rbar := new Word[size];
      rlar := new Word[size];
      rnr, mair0, enabled := 0, 0, false;
    }

    method AllocateRegion(base: Word, size: Word, perm: Permissions, config: array<Option<RegionConfig>>)
      returns (result: Result<(), MpuError>)
      modifies config
      ensures match Allocate(RegionRequest(base, size, perm), old(config[..]))
              case Ok(c) => result == Ok(()) && config[..] == c
              case Err(e) => result == Err(e) && config[..] == old(config[..])
    {
      var r := RegionRequest(base, size, perm);
      if base % 32 != 0 {
        return Err(AddressNotAligned);
      }
      var endAddr := EndOf(r);
      if size < 32 {
        return Err(SizeTooSmall);
      }
      if endAddr % 32 != 0 {
        return Err(AddressNotAligned);
      }
      var packed := Pack(r);
      for i := 0 to config.Length
        modifies {}
        invariant forall k :: 0 <= k < i && config[k].Some? ==> !Collides(r, config[k].value)
      {
        if config[i].Some? && Collides(r, config[i].value) {
          assert config[..][i] == config[i];
          return Err(RegionOverlap);
        }
      }
      assert Refusal(r, config[..]).None?;
      for i := 0 to config.Length
        invariant config[..] == old(config[..])
        invariant forall k :: 0 <= k < i ==> config[k].Some?
      {
        if config[i].None? {
          FirstFreeIs(config[..], i);
          config[i] := Some(packed);
          assert config[..] == old(config[..])[i := Some(packed)];
          return Ok(());
        }
      }
      FirstFreeIs(config[..], config.Length);
      return Err(NoRegionsAvailable);
    }

    method ConfigureMpu(config: array<Option<RegionConfig>>)
      requires Valid() && config.Length == n
      modifies this, rbar, rlar
      ensures Valid()
      ensures Regions() == Programmed(config[..])
      ensures mair0 % 0x100 == 0x44 && mair0 / 0x100 == old(mair0) / 0x100 && enabled == old(enabled)
    {
      mair0 := mair0 / 0x100 * 0x100 + 0x44;
      for i := 0 to config.Length
        invariant mair0 % 0x100 == 0x44 && mair0 / 0x100 == old(mair0) / 0x100 && enabled == old(enabled)
        invariant forall k :: 0 <= k < i ==> RegionConfig(rbar[k], rlar[k]) == Programmed(config[..])[k]
      {
        rnr := i;
        match config[i]
        case Some(region) =>
          rbar[rnr] := region.rbar;
          rlar[rnr] := region.rlar;
        case None =>
          rbar[rnr] := 0;
          rlar[rnr] := 0;
      }
    }

    method EnableMpu()
      modifies this`enabled
      ensures enabled
    {
      enabled := true;
    }
  }

  lemma {:induction false} FirstFreeIs(config: MpuConfig, k: nat)
    requires k <= |config|
    requires forall i :: 0 <= i < k ==> config[i].Some?
    requires k < |config| ==> config[k].None?
    ensures FirstFree(config) == k
  {
    if k > 0 {
      FirstFreeIs(config[1..], k - 1);
    }
  }

  // ----- The reference: greedy admission of exact ranges -----------------------------------

  /** No 32-bit wrap: the range ends inside the address space. */
  predicate InRange(r: RegionRequest) {
    r.base + r.size <= USIZE_MAX
  }

  predicate Apart(a: RegionRequest, b: RegionRequest) {
    a.base + a.size <= b.base || b.base + b.size <= a.base
  }

  predicate WellFormed(r: RegionRequest) {
    r.base % 32 == 0 && r.size >= 32 && r.size % 32 == 0 && InRange(r)
  }

  /** A request is granted when it is aligned, big enough, apart from every earlier grant, and one
      of the `n` regions is still free. */
  predicate Admissible(r: RegionRequest, granted: seq<RegionRequest>, n: nat) {
    && WellFormed(r)
    && (forall i :: 0 <= i < |granted| ==> Apart(r, granted[i]))
    && |granted| < n
  }

  function Granted(rs: seq<RegionRequest>, n: nat): seq<RegionRequest> {
    if rs == [] then []
    else
      var before := Granted(rs[..|rs| - 1], n);
      if Admissible(Last(rs), before, n) then before + [Last(rs)] else before
  }

  function Encode(granted: seq<RegionRequest>, n: nat): MpuConfig {
    seq(n, i => if 0 <= i < |granted| then Some(Pack(granted[i])) else None)
  }

  /** The range and access bits a register pair stands for. */
  function DecodedBase(rc: RegionConfig): int { Floor32(rc.rbar) }
  function DecodedLimit(rc: RegionConfig): int { Floor32(rc.rlar) + 31 }
  predicate Enabled(rc: RegionConfig) { rc.rlar % 32 % 2 == 1 }

  lemma WrapSmall(n: int)
    requires 0 <= n < TWO_32
    ensures Wrap(n) == n
  {
  }

  lemma LowBits(b: int, k: int)
    requires b % 32 == 0 && 0 <= k < 32
    ensures (b + k) % 32 == k && Floor32(b + k) == b
  {
  }

  lemma SumIsAligned(r: RegionRequest)
    requires InRange(r) && r.base % 32 == 0
    ensures EndOf(r) == r.base + r.size
    ensures EndOf(r) % 32 == 0 <==> r.size % 32 == 0
  {
  }

  /** The registers of a well-formed request, without wrap-around or rounding. */
  lemma PackIs(r: RegionRequest)
    requires WellFormed(r)
    ensures Pack(r) == RegionConfig(r.base + AccessBits(r.perm), r.base + r.size - 32 + RLAR_FLAGS)
    ensures (r.base + r.size - 32) % 32 == 0
  {
    SumIsAligned(r);
    WrapSmall(r.base + r.size - 1);
    LowBits(r.base + r.size - 32, 31);
  }

  /** Base, limit, access bits and the enable bit are read back from the packed registers. */
  lemma PackDecodes(r: RegionRequest)
    requires WellFormed(r)
    ensures DecodedBase(Pack(r)) == r.base
    ensures DecodedLimit(Pack(r)) == r.base + r.size - 1
    ensures Pack(r).rbar % 32 == AccessBits(r.perm)
    ensures Enabled(Pack(r))
  {
    PackIs(r);
    LowBits(r.base, AccessBits(r.perm));
    LowBits(r.base + r.size - 32, RLAR_FLAGS);
  }

  lemma CollidesIs(r: RegionRequest, rc: RegionConfig, limit: Word)
    requires Floor32(rc.rlar) + 0x20 == limit
    ensures Collides(r, rc) <==> r.base < limit && Floor32(rc.rbar) < EndOf(r)
  {
    WrapSmall(limit);
  }

  lemma CollisionIsOverlap(r: RegionRequest, g: RegionRequest)
    requires WellFormed(g) && WellFormed(r)
    ensures Collides(r, Pack(g)) <==> !Apart(r, g)
  {
    assert EndOf(r) == r.base + r.size by { SumIsAligned(r); }
    assert Floor32(Pack(g).rbar) == g.base && Floor32(Pack(g).rlar) + 0x20 == g.base + g.size by { PackDecodes(g); }
    CollidesIs(r, Pack(g), g.base + g.size);
  }

  lemma {:induction false} GrantedIsWellFormed(rs: seq<RegionRequest>, n: nat)
    ensures |Granted(rs, n)| <= n
    ensures forall g :: g in Granted(rs, n) ==> WellFormed(g) && g in rs
    ensures forall i, j :: 0 <= i < j < |Granted(rs, n)| ==> Apart(Granted(rs, n)[i], Granted(rs, n)[j])
  {
    if rs != [] {
      GrantedIsWellFormed(rs[..|rs| - 1], n);
    }
  }

  /** One allocation step on the encoding of a list of grants is one step of greedy admission. */
  lemma AllocateExtendsGrants(r: RegionRequest, before: seq<RegionRequest>, n: nat)
    requires InRange(r) && |before| <= n
    requires forall g :: g in before ==> WellFormed(g)
    ensures AllocateOrSkip(r, Encode(before, n))
            == Encode(if Admissible(r, before, n) then before + [r] else before, n)
  {
    var config := Encode(before, n);
    FirstFreeIs(config, |before|);
    if WellFormed(r) {
      SumIsAligned(r);
      forall i | 0 <= i < |before|
        ensures config[i] == Some(Pack(before[i]))
        ensures Collides(r, config[i].value) <==> !Apart(r, before[i])
      {
        CollisionIsOverlap(r, before[i]);
      }
      if Admissible(r, before, n) {
        assert config[|before| := Some(Pack(r))] == Encode(before + [r], n);
      }
    } else if r.base % 32 == 0 {
      SumIsAligned(r);
    }
  }

  /** Why an allocation is refused, in terms of ranges: an unaligned base or end, fewer than 32 bytes, an
      earlier grant that shares an address, or no region left, in this order. */
  lemma RefusalSaysWhy(r: RegionRequest, before: seq<RegionRequest>, n: nat)
    requires InRange(r) && |before| <= n
    requires forall g :: g in before ==> WellFormed(g)
    ensures var result := Allocate(r, Encode(before, n));
            && (result == Err(AddressNotAligned) <==> r.base % 32 != 0 || (r.size >= 32 && r.size % 32 != 0))
            && (result == Err(SizeTooSmall) <==> r.base % 32 == 0 && r.size < 32)
            && (result == Err(RegionOverlap) <==>
                WellFormed(r) && exists i :: 0 <= i < |before| && !Apart(r, before[i]))
            && (result == Err(NoRegionsAvailable) <==>
                WellFormed(r) && (forall i :: 0 <= i < |before| ==> Apart(r, before[i])) && |before| == n)
  {
    var config := Encode(before, n);
    FirstFreeIs(config, |before|);
    if r.base % 32 == 0 {
      SumIsAligned(r);
    }
    if WellFormed(r) {
      forall i | 0 <= i < |before|
        ensures config[i] == Some(Pack(before[i]))
        ensures Collides(r, config[i].value) <==> !Apart(r, before[i])
      {
        CollisionIsOverlap(r, before[i]);
      }
    }
    hide Pack, Collides, FirstFree;
  }

  /** Every configuration reachable by allocation holds exactly the greedily admitted ranges, in
      order, in a prefix of its slots. */
  lemma {:induction false} AllocationIsGreedy(rs: seq<RegionRequest>, n: nat)
    requires forall r :: r in rs ==> InRange(r)
    ensures AllocateAll(rs, EmptyConfig(n)) == Encode(Granted(rs, n), n)
  {
    if rs == [] {
      assert EmptyConfig(n) == Encode([], n);
    } else {
      var init := rs[..|rs| - 1];
      AllocationIsGreedy(init, n);
      GrantedIsWellFormed(init, n);
      AllocateExtendsGrants(Last(rs), Granted(init, n), n);
    }
  }

  /** An address some enabled region covers. */
  ghost predicate Covered(regions: seq<RegionConfig>, address: int) {
    exists i :: 0 <= i < |regions| && Enabled(regions[i])
                && DecodedBase(regions[i]) <= address <= DecodedLimit(regions[i])
  }

  ghost predicate InRequest(r: RegionRequest, address: int) {
    r.base <= address < r.base + r.size
  }

  /** The registers of one slot: the granted range, or disabled. */
  lemma SlotOfGrants(granted: seq<RegionRequest>, n: nat, i: nat)
    requires |granted| <= n && i < n && forall r :: r in granted ==> WellFormed(r)
    ensures var rc := Programmed(Encode(granted, n))[i];
            if i < |granted| then
              rc == Pack(granted[i]) && Enabled(rc)
              && DecodedBase(rc) == granted[i].base && DecodedLimit(rc) == granted[i].base + granted[i].size - 1
            else !Enabled(rc)
  {
    hide Pack, WellFormed;
    if i < |granted| {
      assert granted[i] in granted;
      PackDecodes(granted[i]);
    }
  }

  /** After programming, an address is covered exactly when a granted request contains it. */
  lemma ProgrammedCoversGrants(rs: seq<RegionRequest>, n: nat, address: int)
    requires forall r :: r in rs ==> InRange(r)
    ensures Covered(Programmed(AllocateAll(rs, EmptyConfig(n))), address)
            <==> exists g :: g in Granted(rs, n) && InRequest(g, address)
  {
    AllocationIsGreedy(rs, n);
    GrantedIsWellFormed(rs, n);
    var granted := Granted(rs, n);
    var regions := Programmed(Encode(granted, n));
    assert |regions| == n;
    hide AllocateAll, Granted, Encode, Programmed, WellFormed, Pack, Enabled, DecodedBase, DecodedLimit;
    forall g | g in granted && InRequest(g, address) ensures Covered(regions, address) {
      var i :| 0 <= i < |granted| && granted[i] == g;
      SlotOfGrants(granted, n, i);
      assert Enabled(regions[i]);
    }
    if Covered(regions, address) {
      var i :| 0 <= i < |regions| && Enabled(regions[i])
               && DecodedBase(regions[i]) <= address <= DecodedLimit(regions[i]);
      SlotOfGrants(granted, n, i);
      assert granted[i] in granted && InRequest(granted[i], address);
    }
  }

  lemma PackIsInjective(r: RegionRequest, t: RegionRequest)
    requires WellFormed(r) && WellFormed(t) && Pack(r) == Pack(t)
    ensures r == t
  {
    PackDecodes(r);
    PackDecodes(t);
    assert AccessBits(r.perm) == AccessBits(t.perm);
  }

  lemma SameGrantAt(g: seq<RegionRequest>, h: seq<RegionRequest>, n: nat, i: nat)
    requires |g| <= n && |h| <= n && i < n
    requires (forall r :: r in g ==> WellFormed(r)) && (forall r :: r in h ==> WellFormed(r))
    requires Programmed(Encode(g, n)) == Programmed(Encode(h, n))
    ensures (i < |g| <==> i < |h|) && (i < |g| ==> g[i] == h[i])
  {
    hide Pack, WellFormed;
    assert Programmed(Encode(g, n))[i] == Programmed(Encode(h, n))[i];
    if i < |g| {
      assert g[i] in g;
      PackDecodes(g[i]);
    }
    if i < |h| {
      assert h[i] in h;
      PackDecodes(h[i]);
    }
    if i < |g| && i < |h| {
      PackIsInjective(g[i], h[i]);
    }
  }

  lemma SameGrants(g: seq<RegionRequest>, h: seq<RegionRequest>, n: nat)
    requires |g| <= n && |h| <= n
    requires (forall r :: r in g ==> WellFormed(r)) && (forall r :: r in h ==> WellFormed(r))
    requires Programmed(Encode(g, n)) == Programmed(Encode(h, n))
    ensures g == h
  {
    hide WellFormed, Encode, Programmed;
    if |g| < |h| {
      SameGrantAt(g, h, n, |g|);
    } else if |h| < |g| {
      SameGrantAt(g, h, n, |h|);
    }
    forall i | 0 <= i < |g| ensures g[i] == h[i] {
      SameGrantAt(g, h, n, i);
    }
  }

  /** Two lists of requests program the same registers exactly when the same ranges are granted. */
  lemma RegistersTellGrants(rs: seq<RegionRequest>, ts: seq<RegionRequest>, n: nat)
    requires forall r :: r in rs + ts ==> InRange(r)
    ensures Programmed(AllocateAll(rs, EmptyConfig(n))) == Programmed(AllocateAll(ts, EmptyConfig(n)))
            <==> Granted(rs, n) == Granted(ts, n)
  {
    hide AllocateAll, Programmed, Encode;
    AllocationIsGreedy(rs, n);
    AllocationIsGreedy(ts, n);
    GrantedIsWellFormed(rs, n);
    GrantedIsWellFormed(ts, n);
    if Programmed(Encode(Granted(rs, n), n)) == Programmed(Encode(Granted(ts, n), n)) {
      SameGrants(Granted(rs, n), Granted(ts, n), n);
    }
  }
}
