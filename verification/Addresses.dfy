/** IPv6 addresses as 128-bit numbers, as sixteen octets and as four words. */
module Addresses {
  import opened Bits
  import opened FilterAst
  import opened Semantics

  const WORD: int := 0x1_0000_0000

  lemma DivDiv(n: nat, b: nat, c: nat)
    requires b >= 1 && c >= 1
    ensures b * c >= 1 && (n / b) / c == n / (b * c)
  {
    var q, r := n / b, n % b;
    var u, t := q / c, q % c;
    MulMonotone(b, t, c - 1);
    LessOne(c, b);
    assert b * c >= 1 by { MulMonotone(b, 1, c); }
    assert n == u * (b * c) + (t * b + r) by {
      assert n == q * b + r;
      assert q == u * c + t;
      MulDistributes(u, c, t, b);
    }
    DivModUnique(n, b * c, u, t * b + r);
  }

  lemma FourOctets(n: nat)
    ensures n / 0x100_0000 % 0x100 * 0x100_0000 + n / 0x1_0000 % 0x100 * 0x1_0000 + n / 0x100 % 0x100 * 0x100 +
            n % 0x100
            == n % WORD
  {
    assert n / 0x1_0000 == n / 0x100 / 0x100;
    assert n / 0x100_0000 == n / 0x100 / 0x100 / 0x100;
  }

  /** Octet `t` of word `j`, the most significant first. */
  lemma OctetOfWord(addr: u128, j: nat, t: nat)
    requires j < 4 && t < 4
    ensures Octets(addr)[4 * j + t] == (addr as int) / Pow2(32 * (3 - j)) / Pow2(8 * (3 - t)) % 0x100
  {
    var e, u := 32 * (3 - j), 8 * (3 - t);
    DivDiv(addr, Pow2(e), Pow2(u));
    Pow2Add(e, u);
    assert e + u == 8 * (15 - (4 * j + t));
  }

  lemma SmallPowers()
    ensures Pow2(0) == 1 && Pow2(8) == 0x100 && Pow2(16) == 0x1_0000 && Pow2(24) == 0x100_0000
  {
    Pow2Add(8, 8);
    Pow2Add(16, 8);
  }

  lemma OctetAt(addr: u128, j: nat, t: nat, n: nat, d: nat)
    requires j < 4 && t < 4 && n == (addr as int) / Pow2(32 * (3 - j)) && d == Pow2(8 * (3 - t))
    ensures Octets(addr)[4 * j + t] == n / d % 0x100
  {
    hide Octets, Pow2;
    OctetOfWord(addr, j, t);
  }

  lemma FromOctets(n: nat, o0: u8, o1: u8, o2: u8, o3: u8)
    requires o0 == n / 0x100_0000 % 0x100 && o1 == n / 0x1_0000 % 0x100 && o2 == n / 0x100 % 0x100 && o3 == n % 0x100
    ensures BigEndian32(o0, o1, o2, o3) == n % WORD
  {
    FourOctets(n);
  }

  lemma WordOfOctets(addr: u128, j: nat, n: nat)
    requires j < 4 && n == (addr as int) / Pow2(32 * (3 - j))
    ensures Ipv6Words(addr)[j] == n % WORD
  {
    hide Octets, Pow2, BigEndian32;
    var o := Octets(addr);
    SmallPowers();
    OctetAt(addr, j, 0, n, 0x100_0000);
    OctetAt(addr, j, 1, n, 0x1_0000);
    OctetAt(addr, j, 2, n, 0x100);
    OctetAt(addr, j, 3, n, 1);
    FromOctets(n, o[4 * j], o[4 * j + 1], o[4 * j + 2], o[4 * j + 3]);
  }

  lemma BaseDigits(n: nat)
    requires n < WORD * WORD * WORD * WORD
    ensures n / WORD / WORD / WORD < WORD
    ensures ((n / WORD / WORD / WORD * WORD + n / WORD / WORD % WORD) * WORD + n / WORD % WORD) * WORD + n % WORD == n
  {
  }

  lemma WordDigits(addr: u128)
    ensures Ipv6Words(addr)[0] == (addr as int) / WORD / WORD / WORD % WORD
    ensures Ipv6Words(addr)[1] == (addr as int) / WORD / WORD % WORD
    ensures Ipv6Words(addr)[2] == (addr as int) / WORD % WORD
    ensures Ipv6Words(addr)[3] == (addr as int) % WORD
  {
    hide Ipv6Words, Pow2;
    WordPowers(addr);
    WordOfOctets(addr, 0, (addr as int) / Pow2(96));
    WordOfOctets(addr, 1, (addr as int) / Pow2(64));
    WordOfOctets(addr, 2, (addr as int) / Pow2(32));
    WordOfOctets(addr, 3, (addr as int) / Pow2(0));
  }

  /** The words of an address are its base-2^32 digits. */
  lemma WordsJoin(addr: u128)
    ensures var w := Ipv6Words(addr); Join(w[0], w[1], w[2], w[3]) == addr
  {
    hide Ipv6Words;
    WordDigits(addr);
    BaseDigits(addr);
  }

  lemma WordPowers(n: nat)
    ensures n / Pow2(0) == n && n / Pow2(32) == n / WORD
    ensures n / Pow2(64) == n / WORD / WORD && n / Pow2(96) == n / WORD / WORD / WORD
  {
    Pow2Of32();
    Pow2Add(32, 32);
    Pow2Add(64, 32);
    DivDiv(n, WORD, WORD);
    DivDiv(n, WORD * WORD, WORD);
  }

  lemma JoinInjective(a: seq<u32>, b: seq<u32>)
    requires |a| == |b| == 4
    ensures a == b <==> Join(a[0], a[1], a[2], a[3]) == Join(b[0], b[1], b[2], b[3])
  {
    if Join(a[0], a[1], a[2], a[3]) == Join(b[0], b[1], b[2], b[3]) {
      assert a[3] == b[3] && a[2] == b[2] && a[1] == b[1] && a[0] == b[0];
    }
  }

  /** Masking works on the high and the low part separately. */
  lemma {:induction false} AndSplit(h: nat, l: nat, h': nat, l': nat, k: nat)
    requires l < Pow2(k) && l' < Pow2(k)
    ensures Bits.And(h * Pow2(k) + l, h' * Pow2(k) + l') == Bits.And(h, h') * Pow2(k) + Bits.And(l, l')
    decreases k
  {
    hide Bits.And, Pow2;
    if k == 0 {
      NoShift(h);
      NoShift(h');
      NoShift(Bits.And(h, h'));
      AndZeroes();
    } else {
      var p := Pow2(k - 1);
      Pow2Step(k);
      AndSplit(h, l / 2, h', l' / 2, k - 1);
      Doubled(h, p, Pow2(k));
      Doubled(h', p, Pow2(k));
      Doubled(Bits.And(h, h'), p, Pow2(k));
      AndDoubled(h * p + l / 2, h' * p + l' / 2, l, l');
    }
  }

  lemma NoShift(h: int)
    ensures h * Pow2(0) == h
  {
  }

  lemma AndZeroes()
    ensures Pow2(0) == 1 && Bits.And(0, 0) == 0
  {
  }

  /** Prepending the lowest bits of `l` and `l'`. */
  lemma AndDoubled(x: nat, x': nat, l: nat, l': nat)
    ensures Bits.And(2 * x + l % 2, 2 * x' + l' % 2) - Bits.And(l, l') ==
            2 * (Bits.And(x, x') - Bits.And(l / 2, l' / 2))
  {
    hide Bits.And;
    AndHalves(2 * x + l % 2, 2 * x' + l' % 2);
    AndHalves(l, l');
  }

  lemma AndJoin(a: seq<u32>, b: seq<u32>)
    requires |a| == |b| == 4
    ensures Bits.And(Join(a[0], a[1], a[2], a[3]), Join(b[0], b[1], b[2], b[3]))
            == Join(Bits.And(a[0], b[0]), Bits.And(a[1], b[1]), Bits.And(a[2], b[2]), Bits.And(a[3], b[3]))
  {
    hide Bits.And, Pow2;
    Pow2Of32();
    var p, q: nat := a[0], b[0];
    AndSplit(p, a[1], q, b[1], 32);
    p, q := p * WORD + a[1], q * WORD + b[1];
    AndSplit(p, a[2], q, b[2], 32);
    p, q := p * WORD + a[2], q * WORD + b[2];
    AndSplit(p, a[3], q, b[3], 32);
  }
}
