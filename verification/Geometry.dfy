/** The sizes of a capture ring, computed from the options of the socket. */
module Geometry {
  import opened Bits
  import opened Common

  const DEFAULT_FRAME_SIZE: u64 := 2048

  /** The options that matter for the sizes. */
  datatype Options = Options(snaplen: u64, frameSize: Option<u64>, blockSize: u64, blockNr: u64)

  datatype Sizes = Sizes(frame: nat, block: nat, ring: nat, frameNr: nat)

  /** The fields of the request for a ring that hold sizes. */
  datatype Request = Request(blockSize: u32, blockNr: u32, frameSize: u32, frameNr: u32)

  // ----- powers of two -----

  /** The exponent of the least power of two that is not below `n`, counted up from `k`. */
  function ExponentFrom(k: nat, n: nat): (e: nat)
    ensures e >= k && Pow2(e) >= n
    ensures forall j: nat :: k <= j && Pow2(j) >= n ==> e <= j
    decreases n - Pow2(k)
  {
    if Pow2(k) >= n then k else ExponentFrom(k + 1, n)
  }

  function NextPowerOfTwo(n: nat): (p: nat)
    ensures p >= 1
  {
    Pow2(ExponentFrom(0, n))
  }

  predicate IsPowerOfTwo(n: nat) { n >= 1 && NextPowerOfTwo(n) == n }

  lemma {:induction false} Pow2Monotone(j: nat, k: nat)
    requires j <= k
    ensures Pow2(j) <= Pow2(k) && Pow2(k) % Pow2(j) == 0
  {
    Pow2Add(k - j, j);
    assert (k - j) + j == k;
    DivModUnique(Pow2(k), Pow2(j), Pow2(k - j), 0);
    MulMonotone(Pow2(j), 1, Pow2(k - j));
  }

  lemma PowersOfTwo(n: nat)
    ensures IsPowerOfTwo(n) <==> exists k: nat :: n == Pow2(k)
  {
    forall k: nat | n == Pow2(k) ensures NextPowerOfTwo(n) == n {
      Pow2Monotone(ExponentFrom(0, n), k);
    }
  }

  lemma NextPowerOfTwoLeast(n: nat, m: nat)
    ensures IsPowerOfTwo(NextPowerOfTwo(n)) && NextPowerOfTwo(n) >= n
    ensures IsPowerOfTwo(m) && m >= n ==> NextPowerOfTwo(n) <= m
  {
    PowersOfTwo(NextPowerOfTwo(n));
    PowersOfTwo(m);
    if IsPowerOfTwo(m) && m >= n {
      var k: nat :| m == Pow2(k);
      Pow2Monotone(ExponentFrom(0, n), k);
    }
  }

  /** Of two powers of two the smaller divides the larger. */
  lemma PowersDivide(d: nat, f: nat)
    requires IsPowerOfTwo(d) && IsPowerOfTwo(f) && d <= f
    ensures f % d == 0
  {
    var j, k := ExponentFrom(0, d), ExponentFrom(0, f);
    if k < j { Pow2Monotone(k, j); }
    Pow2Monotone(if j <= k then j else k, if j <= k then k else j);
  }

  // ----- alignment -----

  /** The bits of a 64-bit word that `a` has not. */
  function Complement(a: u64): u64 { 0xFFFF_FFFF_FFFF_FFFF - a }

  function AlignTo(value: nat, align: nat): nat
    requires IsPowerOfTwo(align) && value + align <= 0x1_0000_0000_0000_0000
  {
    And(value + align - 1, Complement(align - 1))
  }

  lemma Pow2Of64()
    ensures Pow2(64) == 0x1_0000_0000_0000_0000
  {
    Pow2Of32();
    Pow2Add(32, 32);
  }

  lemma SmallExponent(k: nat)
    requires Pow2(k) <= 0x1_0000_0000_0000_0000
    ensures k <= 64
  {
    hide Pow2;
    Pow2Of64();
    Pow2Step(65);
    Pow2Monotone(65, if k > 65 then k else 65);
  }

  /** The complement of the low mask keeps the bits above it. */
  lemma ComplementIsHigh(k: nat)
    requires Pow2(k) <= 0x1_0000_0000_0000_0000
    ensures k <= 64 && Complement(Pow2(k) - 1) == HighBits(64 - k, k)
  {
    hide HighBits, Pow2;
    SmallExponent(k);
    Pow2Of64();
    HighBitsIsShift(64 - k, k);
    Pow2Add(64 - k, k);
    assert (64 - k) + k == 64;
    LessOne(Pow2(64 - k), Pow2(k));
  }

  lemma AlignToRounds(value: nat, align: nat)
    requires IsPowerOfTwo(align) && value + align <= 0x1_0000_0000_0000_0000
    ensures AlignTo(value, align) == (value + align - 1) / align * align
  {
    hide And, Pow2, HighBits, Complement;
    var k := ExponentFrom(0, align);
    ComplementIsHigh(k);
    Pow2Of64();
    assert (64 - k) + k == 64;
    HighMask(value + align - 1, 64 - k, k);
  }

  /** Aligning gives the least multiple of the alignment that is not below the value. */
  lemma AlignToLeast(value: nat, align: nat, multiple: nat)
    requires IsPowerOfTwo(align) && value + align <= 0x1_0000_0000_0000_0000
    ensures value <= AlignTo(value, align) < value + align && AlignTo(value, align) % align == 0
    ensures multiple % align == 0 && multiple >= value ==> AlignTo(value, align) <= multiple
  {
    AlignToRounds(value, align);
    RoundedUp(value, align, multiple);
  }

  lemma RoundedUp(value: nat, d: nat, multiple: nat)
    requires d >= 1
    ensures value <= (value + d - 1) / d * d < value + d && ((value + d - 1) / d * d) % d == 0
    ensures multiple % d == 0 && multiple >= value ==> (value + d - 1) / d * d <= multiple
  {
    var q := (value + d - 1) / d;
    assert q * d + (value + d - 1) % d == value + d - 1;
    DivModUnique(q * d, d, q, 0);
    if multiple % d == 0 && multiple >= value {
      var n := multiple / d;
      assert multiple == n * d;
      DistinctMultiples(n, q, d);
    }
  }

  // ----- the ring -----

  function FrameSize(o: Options): (f: nat)
    ensures f >= 1
  {
    NextPowerOfTwo(Max(if o.frameSize.Some? then o.frameSize.value else DEFAULT_FRAME_SIZE, o.snaplen + 256))
  }

  /** The block size before it is aligned. */
  function Wanted(o: Options): nat { Max(o.blockSize, FrameSize(o)) }

  function BlockSize(o: Options, page: nat): nat
    requires IsPowerOfTwo(page) && Wanted(o) + page <= 0x1_0000_0000_0000_0000
  {
    AlignTo(Wanted(o), page)
  }

  function Times(m: nat, n: nat): nat { m * n }

  function Whole(n: nat, d: nat): nat
    requires d >= 1
  {
    n / d
  }

  /** No computation exceeds a 64-bit word. */
  predicate InWords(o: Options, page: nat)
    requires IsPowerOfTwo(page)
  {
    Wanted(o) + page <= 0x1_0000_0000_0000_0000 && Times(BlockSize(o, page), o.blockNr) < 0x1_0000_0000_0000_0000
  }

  function RingSizes(o: Options, page: nat): (z: Sizes)
    requires IsPowerOfTwo(page) && InWords(o, page)
    ensures z.frame == FrameSize(o) && z.ring == z.block * o.blockNr
  {
    var frame, block := FrameSize(o), BlockSize(o, page);
    var ring := Times(block, o.blockNr);
    Sizes(frame, block, ring, Whole(ring, frame))
  }

  function Truncated(n: nat): u32 { n % 0x1_0000_0000 }

  function RingRequest(o: Options, page: nat): Request
    requires IsPowerOfTwo(page) && InWords(o, page)
  {
    var z := RingSizes(o, page);
    Request(Truncated(z.block), Truncated(o.blockNr), Truncated(z.frame), Truncated(z.frameNr))
  }

  /** Blocks consist of pages and hold a frame with room for a whole packet; frames are powers of two. */
  lemma BlocksHoldFrames(o: Options, page: nat)
    requires IsPowerOfTwo(page) && InWords(o, page)
    ensures var z := RingSizes(o, page);
            z.block % page == 0 && z.block >= z.frame && z.block >= o.blockSize && IsPowerOfTwo(z.frame) &&
            z.frame >= o.snaplen + 256
  {
    hide AlignTo;
    AlignToLeast(Max(o.blockSize, FrameSize(o)), page, 0);
    NextPowerOfTwoLeast(Max(if o.frameSize.Some? then o.frameSize.value else DEFAULT_FRAME_SIZE, o.snaplen + 256), 1);
  }

  /** The frame is the least power of two that holds a packet with its header and is as large as asked for,
      2048 bytes if nothing is asked for. */
  lemma FrameExactly(o: Options, k: nat)
    ensures var asked := if o.frameSize.Some? then o.frameSize.value else 2048;
            (exists e: nat :: FrameSize(o) == Pow2(e)) && FrameSize(o) >= o.snaplen + 256 && FrameSize(o) >= asked &&
            (Pow2(k) >= o.snaplen + 256 && Pow2(k) >= asked ==> FrameSize(o) <= Pow2(k))
  {
    hide Pow2, IsPowerOfTwo;
    var least := Max(if o.frameSize.Some? then o.frameSize.value else DEFAULT_FRAME_SIZE, o.snaplen + 256);
    PowersOfTwo(Pow2(k));
    NextPowerOfTwoLeast(least, Pow2(k));
    PowersOfTwo(FrameSize(o));
  }

  /** The block is the least number of whole pages that is as large as asked for and holds a frame. */
  lemma BlockExactly(o: Options, page: nat, m: nat)
    requires IsPowerOfTwo(page) && InWords(o, page)
    ensures var z := RingSizes(o, page);
            z.frame == FrameSize(o) && z.block % page == 0 && z.block >= o.blockSize && z.block >= z.frame &&
            (m % page == 0 && m >= o.blockSize && m >= z.frame ==> z.block <= m)
  {
    hide AlignTo, NextPowerOfTwo, FrameSize;
    AlignToLeast(Wanted(o), page, m);
  }

  /** The ring consists of all blocks, and as many frames are requested as fit into it. */
  lemma CountsExactly(o: Options, page: nat)
    requires IsPowerOfTwo(page) && InWords(o, page)
    ensures var z := RingSizes(o, page);
            z.ring == z.block * o.blockNr && z.frameNr * z.frame <= z.ring < z.frameNr * z.frame + z.frame
    ensures var z, q := RingSizes(o, page), RingRequest(o, page);
            q.blockSize == z.block % 0x1_0000_0000 && q.blockNr == o.blockNr % 0x1_0000_0000 &&
            q.frameSize == z.frame % 0x1_0000_0000 && q.frameNr == z.frameNr % 0x1_0000_0000
  {
    hide AlignTo, NextPowerOfTwo, FrameSize, BlockSize, Wanted, Times, IsPowerOfTwo;
    var z := RingSizes(o, page);
    assert z.ring == z.ring / z.frame * z.frame + z.ring % z.frame;
  }

  /** The number of frames is that of whole frames in all blocks, unless the rests of the blocks add up to a frame. */
  lemma FrameCount(o: Options, page: nat)
    requires IsPowerOfTwo(page) && InWords(o, page)
    ensures var z := RingSizes(o, page);
            z.frameNr == o.blockNr * (z.block / z.frame) <==> o.blockNr * (z.block % z.frame) < z.frame
  {
    hide AlignTo, NextPowerOfTwo, FrameSize, BlockSize, Wanted;
    var z := RingSizes(o, page);
    WholeInAll(z.block, z.frame, o.blockNr);
  }

  lemma WholeInAll(block: nat, frame: nat, n: nat)
    requires frame >= 1
    ensures Times(block, n) / frame == n * (block / frame) <==> n * (block % frame) < frame
  {
    var q, r := block / frame, block % frame;
    assert block == q * frame + r;
    MulDistributes(q, frame, r, n);
    MulAssoc(q, n, frame);
    WholeAndRest(block * n, frame, n * q, n * r);
  }

  lemma WholeAndRest(total: nat, d: nat, q: nat, rest: nat)
    requires d >= 1 && total == q * d + rest
    ensures total / d == q <==> rest < d
  {
    if rest < d {
      DivModUnique(total, d, q, rest);
    }
    assert total == (total / d) * d + total % d;
  }

  /** Frames fill the blocks exactly when rounding the wanted block size up to whole frames adds less than a page. */
  lemma FramesFillBlocks(o: Options, page: nat)
    requires IsPowerOfTwo(page) && InWords(o, page)
    ensures var z := RingSizes(o, page); var wanted := Wanted(o);
            z.block % z.frame == 0 <==> Gap(wanted, z.frame) < page
  {
    hide AlignTo, NextPowerOfTwo;
    var z := RingSizes(o, page);
    var wanted := Wanted(o);
    BlocksHoldFrames(o, page);
    AlignToLeast(wanted, page, 0);
    var gap := Gap(wanted, z.frame);
    var whole := wanted + gap;
    NextMultiple(wanted, z.frame);
    if z.frame <= page {
      PowersDivide(z.frame, page);
      DividesThrough(z.block, page, z.frame);
    } else {
      PowersDivide(page, z.frame);
      DividesThrough(whole, z.frame, page);
      AlignToLeast(wanted, page, whole);
      if gap < page { OneMultiple(z.block, whole, page); }
      if z.block % z.frame == 0 { OneMultiple(whole, z.block, z.frame); }
    }
  }

  /** What is missing from `n` to a multiple of `d`. */
  function Gap(n: int, d: int): nat
    requires d >= 1
  {
    (-n) % d
  }

  lemma NextMultiple(n: int, d: int)
    requires d >= 1
    ensures (n + Gap(n, d)) % d == 0
  {
    var q := (-n) / d;
    assert -n == q * d + Gap(n, d);
    assert n + Gap(n, d) == (-q) * d;
    DivModUnique(n + Gap(n, d), d, -q, 0);
  }

  lemma DividesThrough(n: nat, d: nat, e: nat)
    requires d >= 1 && e >= 1 && n % d == 0 && d % e == 0
    ensures n % e == 0
  {
    var q, p := n / d, d / e;
    assert n == q * d && d == p * e;
    MulAssoc(q, p, e);
    DivModUnique(n, e, q * p, 0);
  }

  /** Two multiples less than one unit apart are equal. */
  lemma OneMultiple(m: int, n: int, d: int)
    requires d >= 1 && m % d == 0 && n % d == 0 && -d < m - n < d
    ensures m == n
  {
    assert m == (m / d) * d && n == (n / d) * d;
    DistinctMultiples(m / d, n / d, d);
  }

  /** Blocks of 1028 KiB, asked for with the default packet length and pages of 4 KiB. */
  const MISFIT: Options := Options(65535, None, 1028 * 1024, 64)

  lemma SeventeenBits()
    ensures Pow2(12) == 4096 && Pow2(16) == 65536 && Pow2(17) == 131072
  {
    Pow2Add(4, 8);
    Pow2Add(8, 8);
    assert Pow2(4) == 16 && Pow2(8) == 256;
  }

  lemma MisfitFrame()
    ensures FrameSize(MISFIT) == 131072
  {
    hide Pow2, ExponentFrom;
    SeventeenBits();
    var e := ExponentFrom(0, 65791);
    Pow2Monotone(if e < 16 then e else 16, 16);
    assert e == 17;
  }

  /** The code does not see to it that frames fill the blocks: here a block of 257 pages holds eight frames
      and a page, and 514 frames are requested where only 512 fit. */
  lemma FramesCanMissBlocks()
    ensures IsPowerOfTwo(4096) && InWords(MISFIT, 4096)
    ensures var z := RingSizes(MISFIT, 4096);
            z.frame == 131072 && z.block == 257 * 4096 && z.block % z.frame == 4096 &&
            z.frameNr == 514 && MISFIT.blockNr * (z.block / z.frame) == 512
  {
    hide AlignTo, NextPowerOfTwo, FrameSize, And;
    SeventeenBits();
    PowersOfTwo(4096);
    MisfitFrame();
    assert Wanted(MISFIT) == 257 * 4096;
    AlignToLeast(257 * 4096, 4096, 257 * 4096);
  }

  /** In particular frames fill the blocks when a page holds whole frames, when no block larger than a frame
      was asked for, or when the block asked for consists of frames; then no frame is lost. */
  lemma UsualFramesFillBlocks(o: Options, page: nat)
    requires IsPowerOfTwo(page) && InWords(o, page)
    requires FrameSize(o) <= page || o.blockSize <= FrameSize(o) || o.blockSize % FrameSize(o) == 0
    ensures var z := RingSizes(o, page); z.block % z.frame == 0 && z.frameNr == o.blockNr * (z.block / z.frame)
  {
    hide AlignTo, NextPowerOfTwo, FrameSize, BlockSize, Times, Whole, Wanted, Gap;
    var z := RingSizes(o, page);
    SmallGap(o, page);
    FramesFillBlocks(o, page);
    FrameCount(o, page);
    assert o.blockNr * 0 < z.frame;
  }

  lemma SmallGap(o: Options, page: nat)
    requires page >= 1 && (FrameSize(o) <= page || o.blockSize <= FrameSize(o) || o.blockSize % FrameSize(o) == 0)
    ensures Gap(Wanted(o), FrameSize(o)) < page
  {
    hide FrameSize;
    var f := FrameSize(o);
    if o.blockSize <= f {
      assert f == 1 * f;
      DivModUnique(f, f, 1, 0);
      OneUnit(f, f);
    } else if o.blockSize % f == 0 {
      OneUnit(o.blockSize, f);
    }
  }

  lemma OneUnit(n: int, d: int)
    requires d >= 1 && n % d == 0
    ensures Gap(n, d) == 0
  {
    assert -n == (-(n / d)) * d;
    DivModUnique(-n, d, -(n / d), 0);
  }

  /** A ring of less than 4 GiB with a block is requested as computed. */
  lemma SmallRingRequest(o: Options, page: nat)
    requires IsPowerOfTwo(page) && InWords(o, page) && o.blockNr >= 1 && RingSizes(o, page).ring < 0x1_0000_0000
    ensures var z := RingSizes(o, page); var q := RingRequest(o, page);
            q.blockSize == z.block && q.blockNr == o.blockNr && q.frameSize == z.frame && q.frameNr == z.frameNr
  {
    hide AlignTo, NextPowerOfTwo, FrameSize, BlockSize, Wanted, Times, Whole, IsPowerOfTwo;
    var z := RingSizes(o, page);
    BlocksHoldFrames(o, page);
    NoneLarger(z.block, o.blockNr, z.frame);
    assert z.frameNr == Whole(z.ring, z.frame);
  }

  lemma NoneLarger(block: nat, n: nat, frame: nat)
    requires n >= 1 && block >= frame >= 1
    ensures block <= block * n && n <= block * n && Whole(block * n, frame) <= block * n
  {
    MulMonotone(block, 1, n);
    MulMonotone(n, 1, block);
    var ring, nr := block * n, block * n / frame;
    MulMonotone(nr, 1, frame);
    assert ring == nr * frame + ring % frame;
  }
}
