/** Netmasks of network expressions: prefix lengths, explicit masks and classful defaults. */
module NetMask {
  import opened Common
  import opened Bits
  import opened FilterAst

  datatype NetMask = Prefix(p: u8) | MaskV4(v4: u32) | MaskV6(v6: u128)

  datatype MaskToken = PrefixToken(number: nat) | AddressToken(addr: HostAddr)

  /** Shifting by the full width panics in a build with overflow checks and shifts by zero without them. */
  datatype Build = Checked | Unchecked

  datatype NetError = InvalidMask | PrefixTooLong | VersionMismatch | ShiftOverflow

  datatype Result<T> = Success(value: T) | Failure(error: NetError)

  /** The classful default: the first octet decides how many octets belong to the network. */
  function DefaultNetmask(host: HostAddr): NetMask {
    match host
    case HostV4(a) =>
      var first := a / 0x100_0000;
      if first < 128 then Prefix(8)
      else if first < 192 then Prefix(16)
      else if first < 224 then Prefix(24)
      else Prefix(32)
    case HostV6(_) => Prefix(128)
  }

  function ParseNetmask(token: MaskToken, host: HostAddr): Result<NetMask> {
    match token
    case AddressToken(a) =>
      (match (host, a)
       case (HostV4(_), HostV4(m)) => Success(MaskV4(m))
       case (HostV6(_), HostV6(m)) => Success(MaskV6(m))
       case _ => Failure(InvalidMask))
    case PrefixToken(n) =>
      if n > 255 then Failure(InvalidMask)
      else if host.HostV4? && n > 32 then Failure(PrefixTooLong)
      else if host.HostV6? && n > 128 then Failure(PrefixTooLong)
      else Success(Prefix(n))
  }

  /** All ones of a `width`-bit word shifted left by `width - p`. */
  function ShiftedOnes(width: nat, p: nat, build: Build): Result<nat>
    requires width >= 1 && p <= width
  {
    if p == 0 && build == Checked then Failure(ShiftOverflow)
    else Success(((Pow2(width) - 1) * Pow2((width - p) % width)) % Pow2(width))
  }

  lemma Pow2Of128()
    ensures Pow2(128) == 0x1_0000_0000_0000_0000_0000_0000_0000_0000
  {
    Pow2Of32();
    Pow2Add(32, 32);
    Pow2Add(64, 64);
  }

  function CombineNet(host: HostAddr, mask: NetMask, build: Build): Result<NetAddr>
    requires mask.Prefix? ==> mask.p <= if host.HostV4? then 32 else 128
  {
    match (host, mask)
    case (HostV4(a), Prefix(p)) =>
      Pow2Of32();
      (match ShiftedOnes(32, p, build) case Success(m) => Success(NetV4(a, m)) case Failure(e) => Failure(e))
    case (HostV4(a), MaskV4(m)) => Success(NetV4(a, m))
    case (HostV6(a), Prefix(p)) =>
      Pow2Of128();
      (match ShiftedOnes(128, p, build) case Success(m) => Success(NetV6(a, m)) case Failure(e) => Failure(e))
    case (HostV6(a), MaskV6(m)) => Success(NetV6(a, m))
    case _ => Failure(VersionMismatch)
  }

  /** `host` with the netmask written behind it, or with the default one. */
  function ParseNet(host: HostAddr, token: Option<MaskToken>, build: Build): Result<NetAddr> {
    match token
    case None => CombineNet(host, DefaultNetmask(host), build)
    case Some(t) =>
      match ParseNetmask(t, host)
      case Success(m) => CombineNet(host, m, build)
      case Failure(e) => Failure(e)
  }

  /** The shift overflows exactly for an empty prefix in a checked build. */
  lemma NetOverflows(host: HostAddr, token: Option<MaskToken>, build: Build)
    ensures ParseNet(host, token, build) == Failure(ShiftOverflow) <==>
            build == Checked && token == Some(PrefixToken(0))
  {
    hide Pow2;
  }

  // ----- prefixes -----

  /** For prefixes of at least one bit the mask is `p` ones above zeros. */
  lemma PrefixMask(width: nat, p: nat, build: Build)
    requires 1 <= p <= width
    ensures ShiftedOnes(width, p, build) == Success(HighBits(p, width - p))
  {
    HighBitsIsShift(p, width - p);
    assert p + (width - p) == width;
    SmallMod(width - p, width);
  }

  /** For an empty prefix there is no mask in a checked build, and the mask of a single host otherwise. */
  lemma EmptyPrefixMask(width: nat)
    requires width >= 1
    ensures ShiftedOnes(width, 0, Checked) == Failure(ShiftOverflow)
    ensures ShiftedOnes(width, 0, Unchecked) == Success(Pow2(width) - 1)
  {
    assert width % width == 0;
    assert Pow2(0) == 1;
    SmallMod(Pow2(width) - 1, Pow2(width));
  }

  /** The mask of `p` ones; for no ones at all the shift by 32 is one by 0, and the mask is full. */
  function Ones32(p: nat): u32
    requires p <= 32
  {
    Pow2Of32();
    if p == 0 then 0xFFFF_FFFF else HighBits(p, 32 - p)
  }

  function Ones128(p: nat): u128
    requires p <= 128
  {
    Pow2Of128();
    if p == 0 then 0xFFFF_FFFF_FFFF_FFFF_FFFF_FFFF_FFFF_FFFF else HighBits(p, 128 - p)
  }

  /** The ones stand above the zeros: as a number the mask is 2^32 less 2^(32 - p). */
  lemma OnesExactly(p: nat)
    ensures 1 <= p <= 32 ==> Ones32(p) == 0x1_0000_0000 - Pow2(32 - p)
    ensures 1 <= p <= 128 ==> Ones128(p) == 0x1_0000_0000_0000_0000_0000_0000_0000_0000 - Pow2(128 - p)
  {
    hide Pow2;
    Pow2Of32();
    Pow2Of128();
    if 1 <= p <= 32 { HighBitsDifference(p, 32 - p); }
    if 1 <= p <= 128 { HighBitsDifference(p, 128 - p); }
  }

  lemma HighBitsDifference(p: nat, q: nat)
    ensures HighBits(p, q) == Pow2(p + q) - Pow2(q)
  {
    hide Pow2;
    HighBitsIsShift(p, q);
    Pow2Add(p, q);
    LessOne(Pow2(p), Pow2(q));
  }

  lemma PrefixNet(a: u32, v6: u128, p: nat, build: Build)
    ensures ParseNet(HostV4(a), Some(PrefixToken(p)), build) ==
            if p > 255 then Failure(InvalidMask)
            else if p > 32 then Failure(PrefixTooLong)
            else if p == 0 && build == Checked then Failure(ShiftOverflow)
            else Success(NetV4(a, Ones32(p)))
    ensures ParseNet(HostV6(v6), Some(PrefixToken(p)), build) ==
            if p > 255 then Failure(InvalidMask)
            else if p > 128 then Failure(PrefixTooLong)
            else if p == 0 && build == Checked then Failure(ShiftOverflow)
            else Success(NetV6(v6, Ones128(p)))
  {
    hide Pow2, ShiftedOnes;
    Pow2Of32();
    Pow2Of128();
    if p == 0 {
      EmptyPrefixMask(32);
      EmptyPrefixMask(128);
    } else {
      if p <= 32 { PrefixMask(32, p, build); }
      if p <= 128 { PrefixMask(128, p, build); }
    }
  }

  /** The netmasks of networks written without one. */
  lemma DefaultNets(a: u32, v6: u128, build: Build)
    ensures var first: int := a / 0x100_0000;
            var mask: u32 := if first < 128 then 0xFF00_0000 else if first < 192 then 0xFFFF_0000
                             else if first < 224 then 0xFFFF_FF00 else 0xFFFF_FFFF;
            ParseNet(HostV4(a), None, build) == Success(NetV4(a, mask))
    ensures ParseNet(HostV6(v6), None, build) == Success(NetV6(v6, 0xFFFF_FFFF_FFFF_FFFF_FFFF_FFFF_FFFF_FFFF))
  {
    hide Pow2, ShiftedOnes, HighBits;
    Pow2Of32();
    Pow2Of128();
    Pow2Of24();
    HighBitsDifference(8, 24);
    HighBitsDifference(16, 16);
    HighBitsDifference(24, 8);
    HighBitsDifference(32, 0);
    HighBitsDifference(128, 0);
    PrefixMask(32, 8, build);
    PrefixMask(32, 16, build);
    PrefixMask(32, 24, build);
    PrefixMask(32, 32, build);
    PrefixMask(128, 128, build);
  }

  lemma Pow2Of24()
    ensures Pow2(0) == 1 && Pow2(8) == 0x100 && Pow2(16) == 0x1_0000 && Pow2(24) == 0x100_0000
  {
    Pow2Add(8, 8);
    Pow2Add(16, 8);
  }

  /** `a` and `b`, numbers of `width` bits, agree on their first `p` bits. */
  predicate SamePrefix(width: nat, p: nat, a: nat, b: nat)
    requires p <= width
  {
    a / Pow2(width - p) == b / Pow2(width - p)
  }

  /** The mask, where there is one, compares exactly the first `p` bits, for every pair of addresses. */
  ghost predicate ComparesPrefix(width: nat, p: nat, build: Build)
    requires width >= 1 && p <= width
  {
    var m := ShiftedOnes(width, p, build);
    m.Success? && forall a: nat, b: nat :: a < Pow2(width) && b < Pow2(width) ==>
               (Bits.And(a, m.value) == Bits.And(b, m.value) <==> SamePrefix(width, p, a, b))
  }

  /** Masks compare prefixes exactly when the prefix is not empty. */
  lemma PrefixExactly(width: nat, p: nat, build: Build)
    requires width >= 1 && p <= width
    ensures ComparesPrefix(width, p, build) <==> p >= 1
  {
    if p >= 1 {
      PrefixMask(width, p, build);
      forall a: nat, b: nat | a < Pow2(width) && b < Pow2(width)
        ensures Bits.And(a, HighBits(p, width - p)) == Bits.And(b, HighBits(p, width - p)) <==>
                SamePrefix(width, p, a, b)
      {
        assert p + (width - p) == width;
        HighMaskAgree(a, b, p, width - p);
      }
    } else {
      EmptyPrefixMask(width);
      assert Pow2(width) == 2 * Pow2(width - 1);
      if build == Unchecked {
        var m := Pow2(width) - 1;
        assert Bits.And(0, m) == 0;
        LowMask(1, width);
        SmallMod(1, Pow2(width));
        assert SamePrefix(width, 0, 0, 1) by { SmallQuotients(Pow2(width)); }
        assert Bits.And(1, m) == 1;
      }
    }
  }

  lemma SmallQuotients(d: nat)
    requires d >= 2
    ensures 0 / d == 0 && 1 / d == 0
  {
  }

  /** Masking a masked number again changes nothing. */
  lemma {:induction false} AndIdempotent(a: nat, m: nat)
    ensures Bits.And(Bits.And(a, m), m) == Bits.And(a, m)
    decreases a
  {
    if a != 0 && m != 0 {
      hide Bits.And;
      AndIdempotent(a / 2, m / 2);
      AndHalves(a, m);
      AndHalves(Bits.And(a, m), m);
    } else {
      AndZero(m);
    }
  }

  lemma AndZero(m: nat)
    ensures Bits.And(0, m) == 0
  {
  }
}
