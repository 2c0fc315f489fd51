/** Which flows cannot share a bucket of hardware slots. */
module FlowBuckets {
  import opened Polynomials
  import opened CrcCcitt
  import opened FlowKey

  /** Eight clocks of the loop that builds a table entry. */
  function Clocks(crc: bv16, c: bv16, n: nat): bv16
    decreases n
  {
    if n == 0 then crc else Clocks(ShiftCrc(crc, c), Shift1(c), n - 1)
  }

  lemma {:induction false} ClocksAreSerial(crc: bv16, c: bv16, n: nat)
    requires n <= 8
    ensures Serial(WordBits(crc), WordBits(c)[..n]) == WordBits(Clocks(crc, c, n))
    decreases n
  {
    hide WordBits, ShiftCrc, Shift1;
    if n > 0 {
      SerialStep(crc, c, n);
      ClocksAreSerial(ShiftCrc(crc, c), Shift1(c), n - 1);
    }
  }

  function EntryFor(d: bv8): bv16 {
    Clocks(0, (d as bv16) << 8, 8)
  }

  lemma EntryIsRemainder(d: bv8)
    ensures WordBits(EntryFor(d)) == Remainder(ByteBits(d) + Zeros(16))
  {
    hide WordBits, Clocks, ByteBits;
    FirstByte(d);
    ClocksAreSerial(0, (d as bv16) << 8, 8);
    SerialFromZero(ByteBits(d));
  }

  lemma FourClocks(crc: bv16, c: bv16, n: nat)
    requires n >= 4
    ensures var c1, r1 := Shift1(c), ShiftCrc(crc, c);
            var c2, r2 := Shift1(c1), ShiftCrc(r1, c1);
            var c3, r3 := Shift1(c2), ShiftCrc(r2, c2);
            Clocks(crc, c, n) == Clocks(ShiftCrc(r3, c3), Shift1(c3), n - 4)
  {
    hide Shift1, ShiftCrc;
    var c1, r1 := Shift1(c), ShiftCrc(crc, c);
    var c2, r2 := Shift1(c1), ShiftCrc(r1, c1);
    assert Clocks(crc, c, n) == Clocks(r1, c1, n - 1) == Clocks(r2, c2, n - 2);
    var c3, r3 := Shift1(c2), ShiftCrc(r2, c2);
    assert Clocks(r2, c2, n - 2) == Clocks(r3, c3, n - 3);
  }

  /** n times the terms of the generator without the highest. */
  function Feedback(n: bv16): bv16 {
    (n << 12) ^ (n << 5) ^ n
  }

  function Upper(d: bv8): bv16 {
    (d >> 4) as bv16
  }

  function Folded(d: bv8): bv16 {
    (d ^ (d >> 4)) as bv16
  }

  /** The first four clocks of an entry, and all eight. */
  lemma HalfEntry(d: bv8)
    ensures var c := (d as bv16) << 8;
            var c1, r1 := Shift1(c), ShiftCrc(0, c);
            var c2, r2 := Shift1(c1), ShiftCrc(r1, c1);
            var c3, r3 := Shift1(c2), ShiftCrc(r2, c2);
            ShiftCrc(r3, c3) == Feedback(Upper(d)) && Shift1(c3) == (d as bv16) << 12
  {
  }

  lemma WholeEntry(d: bv8)
    ensures var c, r := (d as bv16) << 12, Feedback(Upper(d));
            var c1, r1 := Shift1(c), ShiftCrc(r, c);
            var c2, r2 := Shift1(c1), ShiftCrc(r1, c1);
            var c3, r3 := Shift1(c2), ShiftCrc(r2, c2);
            ShiftCrc(r3, c3) == Feedback(Folded(d))
  {
  }

  lemma EntryIs(d: bv8)
    ensures EntryFor(d) == Feedback(Folded(d))
  {
    hide ShiftCrc, Shift1, Feedback, Upper, Folded;
    var c := (d as bv16) << 8;
    FourClocks(0, c, 8);
    HalfEntry(d);
    FourClocks(Feedback(Upper(d)), (d as bv16) << 12, 4);
    WholeEntry(d);
  }

  /** Only the entry of zero has a low byte of zero. */
  lemma LowByteZero(d: bv8)
    requires Low(EntryFor(d)) == 0
    ensures d == 0
  {
    EntryIs(d);
    hide EntryFor;
  }

  // ------------------------------------------------------------------ the last octet of a port

  /** The last byte of the key as it lies in memory. */
  function LastOctet(t: Tuple): bv8 {
    ((t.dp >> 8) & 0xff) as bv8
  }

  /** The key without it. */
  function Front(t: Tuple): (r: Bits)
    ensures |r| == 89
  {
    BytesBits(Mem32(t.sip)) + BytesBits(Mem32(t.dip)) + [IsTcp(t)] + BytesBits(Mem16(t.sp))
    + ByteBits((t.dp & 0xff) as bv8)
  }

  lemma KeyIs(t: Tuple)
    ensures KeyBits(t) == Front(t) + ByteBits(LastOctet(t))
  {
    hide Mem32, ByteBits, Mem16, BytesBits, IsTcp;
    LastTwo(t.dp);
  }

  lemma LastTwo(x: bv16)
    ensures BytesBits(Mem16(x)) == ByteBits((x & 0xff) as bv8) + ByteBits(((x >> 8) & 0xff) as bv8)
  {
    hide ByteBits;
    var lo, hi := (x & 0xff) as bv8, ((x >> 8) & 0xff) as bv8;
    assert [lo, hi][1..] == [hi] && [hi][1..] == [];
    assert BytesBits([hi]) == ByteBits(hi) + [];
  }

  lemma XorSelf(a: Bits)
    ensures Xor(a, a) == Zeros(|a|)
  {
  }

  /** Two keys that differ in the last octet only differ by a multiple of its entry. */
  lemma RemaindersDiffer(t: Tuple, u: Tuple)
    requires Front(t) == Front(u)
    ensures Xor(KeyRemainder(t), KeyRemainder(u)) == WordBits(EntryFor(XorByte(LastOctet(t), LastOctet(u))))
  {
    hide Xor, Front, ByteBits, Remainder, KeyBits, XorByte, LastOctet, WordBits, EntryFor;
    var f, a, b, z := Front(t), ByteBits(LastOctet(t)), ByteBits(LastOctet(u)), Zeros(16);
    KeyIs(t);
    KeyIs(u);
    RemainderXor(KeyBits(t) + z, KeyBits(u) + z);
    XorConcat(f + a, z, f + b, z);
    XorConcat(f, a, f, b);
    XorSelf(f);
    XorZeros(16);
    ByteBitsXor(LastOctet(t), LastOctet(u));
    var x := Xor(a, b);
    assert (Zeros(89) + x) + z == Zeros(89) + (x + z);
    LeadingZeros(89, x + z);
    EntryIsRemainder(XorByte(LastOctet(t), LastOctet(u)));
  }

  lemma LowBitsZero(w: bv16)
    requires WordBits(w)[8..] == Zeros(8)
    ensures Low(w) == 0
  {
    hide ByteBits;
    assert ByteBits(Low(w)) == WordBits(w)[8..];
    ZeroByte();
    ByteBitsInjective(Low(w), 0);
  }

  lemma SameByte(x: bv8, y: bv8)
    requires XorByte(x, y) == 0
    ensures x == y
  {
  }

  /** Flows that differ only in the last octet of the destination port never share a bucket. */
  lemma BucketsApart(t: Tuple, u: Tuple)
    requires Front(t) == Front(u) && LastOctet(t) != LastOctet(u)
    ensures Bucket(t) != Bucket(u)
  {
    hide Front, LastOctet, KeyRemainder, Value, WordBits, EntryFor, XorByte, Low;
    if Bucket(t) == Bucket(u) {
      var a, b := KeyRemainder(t), KeyRemainder(u);
      ValueInjective(a[8..], b[8..]);
      RemaindersDiffer(t, u);
      var d := XorByte(LastOctet(t), LastOctet(u));
      assert Xor(a, b)[8..] == Xor(a[8..], b[8..]);
      XorSelf(a[8..]);
      LowBitsZero(EntryFor(d));
      LowByteZero(d);
      SameByte(LastOctet(t), LastOctet(u));
    }
  }
}
