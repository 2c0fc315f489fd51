/** Byte order: the octets of a word as they lie in memory, the number they write, and that the CRC
    runs over the tuple the hardware row decodes to. */
module FlowOctets {
  import opened Numbers
  import opened Polynomials
  import opened CrcCcitt
  import opened FlowKey
  import opened FlowRows

  // ------------------------------------------------------------------ octets and numbers

  /** The number that octets write in base 256, first octet first. */
  function Number(m: seq<bv8>): nat {
    if m == [] then 0 else 256 * Number(m[..|m| - 1]) + m[|m| - 1] as nat
  }

  lemma NumberOf4(m: seq<bv8>)
    requires |m| == 4
    ensures Number(m) == 0x1000000 * (m[0] as nat) + 0x10000 * (m[1] as nat) + 0x100 * (m[2] as nat) + m[3] as nat
  {
    var a, b, c := m[..3], m[..2], m[..1];
    assert a[..2] == b && b[..1] == c && c[..0] == [];
    assert Number(c) == m[0] as nat;
    assert Number(b) == 256 * Number(c) + m[1] as nat;
    assert Number(a) == 256 * Number(b) + m[2] as nat;
  }

  lemma NumberOf2(m: seq<bv8>)
    requires |m| == 2
    ensures Number(m) == 0x100 * (m[0] as nat) + m[1] as nat
  {
    assert m[..1][..0] == [];
    assert Number(m[..1]) == m[0] as nat;
  }

  function Of4(a: bv8, b: bv8, c: bv8, d: bv8): bv32 {
    More(More(More(a as bv32, b), c), d)
  }

  lemma Of4Is(a: bv8, b: bv8, c: bv8, d: bv8)
    ensures Of4(a, b, c, d) as nat == Number([a, b, c, d])
  {
    NumberOf4([a, b, c, d]);
    Widths(a, b, c);
    hide More;
    MoreIs(a as bv32, b);
    MoreIs(More(a as bv32, b), c);
    MoreIs(More(More(a as bv32, b), c), d);
  }

  lemma Widths(a: bv8, b: bv8, c: bv8)
    ensures (a as bv32) as nat == a as nat && a as bv32 < 0x1000000
    ensures More(a as bv32, b) < 0x1000000 && More(More(a as bv32, b), c) < 0x1000000
  {
  }

  function Of2(a: bv8, b: bv8): bv16 {
    More16(a as bv16, b)
  }

  lemma Of2Is(a: bv8, b: bv8)
    ensures Of2(a, b) as nat == 0x100 * (a as nat) + b as nat
  {
    WideOctet(a);
    hide More16;
    More16Is(a as bv16, b);
  }

  /** A word as the CPU loads it has its octets last first; ntohl puts them in order. */
  lemma Words(x: bv32, y: bv16)
    ensures var m := Mem32(x); x == Of4(m[3], m[2], m[1], m[0]) && Ntoh32(x) == Of4(m[0], m[1], m[2], m[3])
    ensures var n := Mem16(y); y == Of2(n[1], n[0]) && Ntoh16(y) == Of2(n[0], n[1])
  {
  }

  /** The octets of an address in memory are the digits in base 256 of the word the CPU loads, lowest
      first, and those of the word the row holds, highest first. */
  lemma AddressOctets(x: bv32)
    ensures var m := Mem32(x);
            && m[0] as nat == x as nat % 0x100
            && m[1] as nat == x as nat / 0x100 % 0x100
            && m[2] as nat == x as nat / 0x10000 % 0x100
            && m[3] as nat == x as nat / 0x1000000 % 0x100
    ensures Ntoh32(x) as nat == Number(Mem32(x))
  {
    Words(x, 0);
    var m := Mem32(x);
    Of4Is(m[3], m[2], m[1], m[0]);
    NumberOf4([m[3], m[2], m[1], m[0]]);
    Of4Is(m[0], m[1], m[2], m[3]);
    hide Mem32, Ntoh32, Of4, Number;
    Base256(x as nat, m[0] as nat, m[1] as nat, m[2] as nat, m[3] as nat);
    assert m == [m[0], m[1], m[2], m[3]];
  }

  lemma Base256(x: nat, a: nat, b: nat, c: nat, d: nat)
    requires a < 0x100 && b < 0x100 && c < 0x100 && d < 0x100
    requires x == 0x1000000 * d + 0x10000 * c + 0x100 * b + a
    ensures a == x % 0x100 && b == x / 0x100 % 0x100 && c == x / 0x10000 % 0x100 && d == x / 0x1000000 % 0x100
  {
  }

  lemma PortOctets(y: bv16)
    ensures var n := Mem16(y);
            n[0] as nat == y as nat % 0x100 && n[1] as nat == y as nat / 0x100
    ensures Host16(y) as nat == Number(Mem16(y))
  {
    hide Mem16, Ntoh16, Of2, Number, Host16;
    Words(0, y);
    var n := Mem16(y);
    Of2Is(n[0], n[1]);
    Of2Is(n[1], n[0]);
    NumberOf2(n);
    HostNumber(y);
    LowDigit(y as nat, n[0] as nat, n[1] as nat);
  }

  lemma LowDigit(x: nat, a: nat, b: nat)
    requires a < 0x100 && x == 0x100 * b + a
    ensures a == x % 0x100 && b == x / 0x100
  {
  }

  lemma HostNumber(y: bv16)
    ensures Host16(y) as nat == Ntoh16(y) as nat
  {
    hide Ntoh16;
    WidePort(Ntoh16(y));
  }

  lemma WidePort(y: bv16)
    ensures (y as bv32) as nat == y as nat
  {
  }

  // ------------------------------------------------------------------ bits and numbers

  /** The n binary digits of v, most significant first. */
  function Digits(v: nat, n: nat): (r: Bits)
    ensures |r| == n
    decreases n
  {
    if n == 0 then [] else Digits(v / 2, n - 1) + [v % 2 == 1]
  }

  lemma {:induction false} ValueAppend(a: Bits, b: bool)
    ensures Value(a + [b]) == 2 * Value(a) + Weight(b, 1)
  {
    if a == [] {
      assert [] + [b] == [b] && [b][1..] == [];
    } else {
      assert (a + [b])[1..] == a[1..] + [b];
      ValueAppend(a[1..], b);
    }
  }

  lemma {:induction false} ValueConcat(a: Bits, b: Bits)
    ensures Value(a + b) == Value(a) * Power2(|b|) + Value(b)
    decreases |b|
  {
    if b == [] {
      assert a + b == a;
    } else {
      var n := |b| - 1;
      assert a + b == (a + b[..n]) + [b[n]] && b == b[..n] + [b[n]];
      ValueAppend(a + b[..n], b[n]);
      ValueAppend(b[..n], b[n]);
      ValueConcat(a, b[..n]);
      hide Value;
      Doubled2(Value(a), Power2(n), Power2(n + 1));
    }
  }

  lemma Doubled2(v: nat, p: nat, q: nat)
    requires q == 2 * p
    ensures v * q == 2 * (v * p)
  {
  }

  lemma {:induction false} ValueDigits(v: nat, n: nat)
    requires v < Power2(n)
    ensures Value(Digits(v, n)) == v
    decreases n
  {
    if n > 0 {
      ValueDigits(v / 2, n - 1);
      ValueAppend(Digits(v / 2, n - 1), v % 2 == 1);
    }
  }

  /** The bits of octets, one after the other, write their number. */
  lemma {:induction false} BytesNumber(m: seq<bv8>)
    ensures Value(BytesBits(m)) == Number(m)
    decreases |m|
  {
    hide ByteBits, Value;
    if m == [] {
      NoBits();
    } else {
      var n := |m| - 1;
      BytesNumber(m[..n]);
      assert m == m[..n] + [m[n]];
      BytesBitsConcat(m[..n], [m[n]]);
      OneByte(m[n]);
      ValueConcat(BytesBits(m[..n]), ByteBits(m[n]));
      ByteValue(m[n]);
      BytePower();
    }
  }

  lemma NoBits()
    ensures Value([]) == 0
  {
  }

  lemma OneByte(b: bv8)
    ensures BytesBits([b]) == ByteBits(b)
  {
    assert [b][1..] == [];
  }

  lemma BytePower()
    ensures Power2(8) == 0x100 && Power2(16) == 0x10000 && Power2(32) == 0x100000000
  {
    assert Power2(4) == 0x10;
    assert Power2(8) == 0x10 * Power2(4);
    Times16(8);
    Times16(12);
    Times16(16);
    Times16(20);
    Times16(24);
    Times16(28);
  }

  lemma Times16(n: nat)
    ensures Power2(n + 4) == 0x10 * Power2(n)
  {
    assert Power2(n + 2) == 4 * Power2(n);
  }

  lemma AddressBits(x: bv32)
    ensures BytesBits(Mem32(x)) == Digits(Ntoh32(x) as nat, 32)
  {
    AddressOctets(x);
    BytesNumber(Mem32(x));
    hide Mem32, Ntoh32, Value, BytesBits, Number, Digits, Power2;
    BytePower();
    ValueDigits(Ntoh32(x) as nat, 32);
    ValueInjective(BytesBits(Mem32(x)), Digits(Ntoh32(x) as nat, 32));
  }

  lemma PortBits(y: bv16)
    ensures BytesBits(Mem16(y)) == Digits(Host16(y) as nat, 16)
  {
    PortOctets(y);
    BytesNumber(Mem16(y));
    hide Mem16, Host16, Value, BytesBits, Number, Digits, Power2;
    BytePower();
    ValueDigits(Host16(y) as nat, 16);
    ValueInjective(BytesBits(Mem16(y)), Digits(Host16(y) as nat, 16));
  }

  // ------------------------------------------------------------------ the key of a row

  /** The bits that the accelerator takes from a row: both addresses, whether it is TCP, both ports. */
  function RowKey(d: Decoded): (k: Bits)
    ensures |k| == 97
  {
    Digits(d.sip as nat, 32) + Digits(d.dip as nat, 32) + [d.tcp] + Digits(d.sp as nat, 16) + Digits(d.dp as nat, 16)
  }

  /** The string the CRC runs over, in numbers: the addresses and ports that the octets in memory
      write, highest digit first. */
  lemma KeyDigits(t: Tuple)
    ensures KeyBits(t)
         == Digits(Number(Mem32(t.sip)), 32) + Digits(Number(Mem32(t.dip)), 32) + [t.proto == 6]
            + Digits(Number(Mem16(t.sp)), 16) + Digits(Number(Mem16(t.dp)), 16)
    ensures KeyBits(t)
         == Digits(Ntoh32(t.sip) as nat, 32) + Digits(Ntoh32(t.dip) as nat, 32) + [t.proto == 6]
            + Digits(Host16(t.sp) as nat, 16) + Digits(Host16(t.dp) as nat, 16)
  {
    AddressBits(t.sip);
    AddressBits(t.dip);
    PortBits(t.sp);
    PortBits(t.dp);
    AddressOctets(t.sip);
    AddressOctets(t.dip);
    PortOctets(t.sp);
    PortOctets(t.dp);
    hide Mem32, Mem16, Ntoh32, Host16, BytesBits, Digits, Number;
  }

  /** It is the tuple that the row decodes to. */
  lemma KeyOfRow(f: RowFields)
    requires InWidth(f)
    ensures KeyBits(f.key) == RowKey(Decode(PrepIpv4(f)))
  {
    PrepRoundTrip(f);
    KeyDigits(f.key);
    hide KeyBits, Mem32, Mem16, Ntoh32, Host16, Digits, Number, PrepIpv4, Decode, InWidth;
  }
}
