/** The software CRC of the flow accelerator: table construction, table-driven update, and the
    proof that both compute remainders of polynomial division. */
module CrcCcitt {
  import opened Polynomials

  const P_CCITT: bv16 := 0x1021

  function Mask(k: nat): bv8
    requires k < 8
  {
    if k == 0 then 0x80 else if k == 1 then 0x40 else if k == 2 then 0x20 else if k == 3 then 0x10
    else if k == 4 then 0x08 else if k == 5 then 0x04 else if k == 6 then 0x02 else 0x01
  }

  /** Bit k of a byte, counted from the most significant. */
  predicate Bit(b: bv8, k: nat)
    requires k < 8
  {
    b & Mask(k) != 0
  }

  /** The bits of a byte, most significant first. */
  function ByteBits(b: bv8): (s: Bits)
    ensures |s| == 8
  {
    seq(8, k requires 0 <= k < 8 => Bit(b, k))
  }

  function BytesBits(s: seq<bv8>): (r: Bits)
    ensures |r| == 8 * |s|
  {
    if s == [] then [] else ByteBits(s[0]) + BytesBits(s[1..])
  }

  function High(x: bv16): bv8 {
    (x >> 8) as bv8
  }

  function Low(x: bv16): bv8 {
    (x & 0xff) as bv8
  }

  /** The contents of the 16-bit register as the coefficients of x^15 .. x^0. */
  function WordBits(x: bv16): (s: Bits)
    ensures |s| == 16
  {
    ByteBits(High(x)) + ByteBits(Low(x))
  }

  // The register operations of the source, one name each.

  function XorByte(x: bv8, y: bv8): bv8 {
    x ^ y
  }

  function XorWord(x: bv16, y: bv16): bv16 {
    x ^ y
  }

  function Shift1(x: bv16): bv16 {
    x << 1
  }

  function Shift8(x: bv16): bv16 {
    x << 8
  }

  lemma ByteBitsInjective(x: bv8, y: bv8)
    requires ByteBits(x) == ByteBits(y)
    ensures x == y
  {
    var a, b := ByteBits(x), ByteBits(y);
    assert a[0] == b[0] && a[1] == b[1] && a[2] == b[2] && a[3] == b[3];
    assert a[4] == b[4] && a[5] == b[5] && a[6] == b[6] && a[7] == b[7];
  }

  lemma WordBitsInjective(x: bv16, y: bv16)
    requires WordBits(x) == WordBits(y)
    ensures x == y
  {
    hide ByteBits;
    assert ByteBits(High(x)) == WordBits(x)[..8] && ByteBits(Low(x)) == WordBits(x)[8..];
    assert ByteBits(High(y)) == WordBits(y)[..8] && ByteBits(Low(y)) == WordBits(y)[8..];
    ByteBitsInjective(High(x), High(y));
    ByteBitsInjective(Low(x), Low(y));
  }

  lemma BitXor(x: bv8, y: bv8, k: nat)
    requires k < 8
    ensures Bit(XorByte(x, y), k) <==> Bit(x, k) != Bit(y, k)
  {
    var m := Mask(k);
    MaskDistributes(x, y, m);
    MaskedBit(x, k);
    MaskedBit(y, k);
    MaskXors(m);
  }

  lemma MaskDistributes(x: bv8, y: bv8, m: bv8)
    ensures (x ^ y) & m == (x & m) ^ (y & m)
  {
  }

  lemma MaskXors(m: bv8)
    ensures 0 ^ m == m && m ^ 0 == m && m ^ m == 0 && (0 as bv8) ^ 0 == 0
  {
  }

  lemma MaskedBit(x: bv8, k: nat)
    requires k < 8
    ensures x & Mask(k) == if Bit(x, k) then Mask(k) else 0
    ensures Mask(k) != 0
  {
  }

  lemma ByteBitsXor(x: bv8, y: bv8)
    ensures ByteBits(XorByte(x, y)) == Xor(ByteBits(x), ByteBits(y))
  {
    hide Bit, XorByte;
    forall k: nat | k < 8 ensures Bit(XorByte(x, y), k) <==> Bit(x, k) != Bit(y, k) {
      BitXor(x, y, k);
    }
  }

  lemma WordBitsXor(x: bv16, y: bv16)
    ensures WordBits(XorWord(x, y)) == Xor(WordBits(x), WordBits(y))
  {
    hide Bit, ByteBits, High, Low, XorWord, XorByte;
    HalvesXor(x, y);
    var h, l, h', l' := High(x), Low(x), High(y), Low(y);
    ByteBitsXor(h, h');
    ByteBitsXor(l, l');
    XorConcat(ByteBits(h), ByteBits(l), ByteBits(h'), ByteBits(l'));
  }

  lemma HalvesXor(x: bv16, y: bv16)
    ensures High(XorWord(x, y)) == XorByte(High(x), High(y))
    ensures Low(XorWord(x, y)) == XorByte(Low(x), Low(y))
  {
  }

  /** b shifted left, filled from the top of the next byte. */
  function ShiftIn(b: bv8, next: bv8): bv8 {
    (b << 1) | (next >> 7)
  }

  lemma ByteBitsShift(b: bv8, next: bv8)
    ensures ByteBits(ShiftIn(b, next)) == ByteBits(b)[1..] + [ByteBits(next)[0]]
    ensures !ByteBits(0)[0]
  {
    forall k: nat | k < 8
      ensures Bit(ShiftIn(b, next), k) == (if k < 7 then Bit(b, k + 1) else Bit(next, 0))
    {
      BitShift(b, next, k);
    }
  }

  lemma BitShift(b: bv8, next: bv8, k: nat)
    requires k < 8
    ensures Bit(ShiftIn(b, next), k) == if k < 7 then Bit(b, k + 1) else Bit(next, 0)
  {
  }

  /** Shifting the register left moves every coefficient up and brings in a zero. */
  lemma WordBitsShift(x: bv16)
    ensures WordBits(Shift1(x)) == WordBits(x)[1..] + [false]
  {
    hide ByteBits, High, Low, Shift1, ShiftIn;
    var h, l := High(x), Low(x);
    HalvesShift(x);
    ByteBitsShift(h, l);
    ByteBitsShift(l, 0);
    ShiftHalves(ByteBits(h), ByteBits(l));
  }

  lemma ShiftHalves(h: Bits, l: Bits)
    requires |h| == |l| == 8
    ensures (h + l)[1..] + [false] == (h[1..] + [l[0]]) + (l[1..] + [false])
  {
  }

  lemma HalvesShift(x: bv16)
    ensures High(Shift1(x)) == ShiftIn(High(x), Low(x))
    ensures Low(Shift1(x)) == ShiftIn(Low(x), 0)
  {
  }

  lemma WordBitsShift8(x: bv16)
    ensures WordBits(Shift8(x)) == WordBits(x)[8..] + Zeros(8)
  {
    assert High(Shift8(x)) == Low(x) && Low(Shift8(x)) == 0;
    assert ByteBits(0) == Zeros(8);
  }

  lemma WordBitsGenerator()
    ensures WordBits(P_CCITT) == GENERATOR[1..]
    ensures WordBits(0) == Zeros(16)
  {
    assert High(P_CCITT) == 0x10 && Low(P_CCITT) == 0x21;
    assert ByteBits(0x10) == [false, false, false, true, false, false, false, false];
    assert ByteBits(0x21) == [false, false, true, false, false, false, false, true];
    assert ByteBits(0) == Zeros(8);
  }

  lemma WordBitsOfByte(i: bv8)
    ensures WordBits((i as bv16) << 8) == ByteBits(i) + Zeros(8)
  {
    assert High((i as bv16) << 8) == i && Low((i as bv16) << 8) == 0;
    assert ByteBits(0) == Zeros(8);
  }

  // ------------------------------------------------------------------ the division register

  /** One clock of the bit-serial division register of ITU-T Recommendation V.41: shift, and
      subtract the generator when the coefficient that falls out differs from the message bit. */
  function Clock(reg: Bits, bit: bool): (r: Bits)
    requires |reg| == 16
    ensures |r| == 16
  {
    var shifted := reg[1..] + [false];
    if reg[0] != bit then Xor(shifted, GENERATOR[1..]) else shifted
  }

  function Serial(reg: Bits, message: Bits): (r: Bits)
    requires |reg| == 16
    ensures |r| == 16
    decreases |message|
  {
    if message == [] then reg else Serial(Clock(reg, message[0]), message[1..])
  }

  /** The polynomial a register stands for while the bits of `message` are still to come. */
  function Pending(reg: Bits, message: Bits): (d: Bits)
    requires |reg| == 16
    ensures |d| == |message| + 16
  {
    Xor(reg + Zeros(|message|), message + Zeros(16))
  }

  lemma PendingClock(reg: Bits, message: Bits)
    requires |reg| == 16 && message != []
    ensures var d := Pending(reg, message);
            Xor(d, Multiple(d[0], |d| - 17))[1..] == Pending(Clock(reg, message[0]), message[1..])
  {
    var d := Pending(reg, message);
    var m := Multiple(d[0], |d| - 17);
    var n := |message| - 1;
    var reg' := Clock(reg, message[0]);
    var feedback := if d[0] then GENERATOR[1..] else Zeros(16);
    assert m == [d[0]] + (feedback + Zeros(n));
    assert reg' == Xor(reg[1..] + [false], feedback);
    forall i | 0 <= i < n + 16
      ensures Xor(d, m)[1..][i] == Pending(reg', message[1..])[i]
    {
      assert d[i + 1] == ((reg + Zeros(n + 1))[i + 1] != (message + Zeros(16))[i + 1]);
    }
  }

  /** The register ends with the remainder of what it stood for. */
  lemma {:induction false} SerialIsRemainder(reg: Bits, message: Bits)
    requires |reg| == 16
    ensures Serial(reg, message) == Remainder(Pending(reg, message))
    decreases |message|
  {
    var d := Pending(reg, message);
    if message == [] {
      assert d == reg;
    } else {
      var reg', rest := Clock(reg, message[0]), message[1..];
      SerialIsRemainder(reg', rest);
      var next := Xor(d, Multiple(d[0], |d| - 17))[1..];
      PendingClock(reg, message);
      assert next == Pending(reg', rest);
    }
  }

  /** With an empty register, n message bits leave the remainder of the message times x^16. */
  lemma SerialFromZero(message: Bits)
    ensures Serial(Zeros(16), message) == Remainder(message + Zeros(16))
  {
    SerialIsRemainder(Zeros(16), message);
    assert Pending(Zeros(16), message) == message + Zeros(16);
  }

  lemma {:induction false} SerialAppend(reg: Bits, a: Bits, b: Bits)
    requires |reg| == 16
    ensures Serial(reg, a + b) == Serial(Serial(reg, a), b)
    decreases |a|
  {
    if a == [] {
      assert a + b == b;
    } else {
      assert (a + b)[1..] == a[1..] + b;
      SerialAppend(Clock(reg, a[0]), a[1..], b);
    }
  }

  // ------------------------------------------------------------------ the table

  function ToByte(k: nat): bv8
    requires k < 256
  {
    k as bv8
  }

  lemma ToByteInverse(i: bv8)
    ensures (i as nat) < 256 && ToByte(i as nat) == i
  {
  }

  /** The entry for byte i is the remainder of i * x^16. */
  ghost predicate IsEntry(entry: bv16, i: bv8) {
    WordBits(entry) == Remainder(ByteBits(i) + Zeros(16))
  }

  ghost predicate IsCrcTable(tab: seq<bv16>) {
    |tab| == 256 && forall k :: 0 <= k < 256 ==> IsEntry(tab[k], ToByte(k))
  }

  lemma EntryOf(tab: seq<bv16>, i: bv8)
    requires |tab| == 256 && IsCrcTable(tab)
    ensures WordBits(TableAt(tab, i)) == Remainder(ByteBits(i) + Zeros(16))
  {
    hide ToByte;
    ToByteInverse(i);
    assert IsEntry(tab[i as nat], ToByte(i as nat));
  }

  /** The body of the inner loop that builds an entry. */
  function ShiftCrc(crc: bv16, c: bv16): bv16 {
    if XorWord(crc, c) & 0x8000 != 0 then XorWord(Shift1(crc), P_CCITT) else Shift1(crc)
  }

  /** It is one clock of the division register. */
  lemma ShiftIsClock(crc: bv16, c: bv16)
    ensures WordBits(ShiftCrc(crc, c)) == Clock(WordBits(crc), WordBits(c)[0])
  {
    hide WordBits, XorWord, Shift1;
    WordBitsShift(crc);
    WordBitsXor(Shift1(crc), P_CCITT);
    WordBitsGenerator();
    TopBit(crc, c);
  }

  lemma TopBit(crc: bv16, c: bv16)
    ensures XorWord(crc, c) & 0x8000 != 0 <==> WordBits(crc)[0] != WordBits(c)[0]
  {
    hide High, XorWord, XorByte, Bit, WordBits;
    HalvesXor(crc, c);
    BitXor(High(crc), High(c), 0);
    HighBit(crc);
    HighBit(c);
    HighBit(XorWord(crc, c));
  }

  lemma HighBit(x: bv16)
    ensures WordBits(x)[0] == Bit(High(x), 0)
    ensures x & 0x8000 != 0 <==> Bit(High(x), 0)
  {
  }

  method InitCrcCcittTab() returns (tab: array<bv16>)
    ensures fresh(tab)
    ensures IsCrcTable(tab[..])
  {
    hide *;
    tab := new bv16[256];
    for i := 0 to 256
      invariant forall k :: 0 <= k < i ==> IsEntry(tab[k], ToByte(k))
    {
      var crc: bv16 := 0;
      var c: bv16 := (ToByte(i) as bv16) << 8;
      ghost var entry := Serial(Zeros(16), ByteBits(ToByte(i)));
      FirstByte(ToByte(i));
      for j := 0 to 8
        invariant Serial(WordBits(crc), WordBits(c)[..8 - j]) == entry
        invariant forall k :: 0 <= k < i ==> IsEntry(tab[k], ToByte(k))
      {
        SerialStep(crc, c, 8 - j);
        crc := ShiftCrc(crc, c);
        c := Shift1(c);
      }
      EntryDone(crc, WordBits(c)[..0], ToByte(i));
      tab[i] := crc;
    }
    TableDone(tab[..]);
  }

  lemma FirstByte(i: bv8)
    ensures WordBits((i as bv16) << 8)[..8] == ByteBits(i)
    ensures WordBits(0) == Zeros(16)
  {
    WordBitsOfByte(i);
    WordBitsGenerator();
  }

  lemma SerialStep(crc: bv16, c: bv16, n: nat)
    requires 1 <= n <= 8
    ensures Serial(WordBits(crc), WordBits(c)[..n]) == Serial(WordBits(ShiftCrc(crc, c)), WordBits(Shift1(c))[..n - 1])
  {
    hide WordBits, ShiftCrc, Shift1;
    WordBitsShift(c);
    ShiftIsClock(crc, c);
    assert WordBits(c)[..n][1..] == WordBits(Shift1(c))[..n - 1];
  }

  lemma EntryDone(crc: bv16, none: Bits, i: bv8)
    requires none == [] && Serial(WordBits(crc), none) == Serial(Zeros(16), ByteBits(i))
    ensures IsEntry(crc, i)
  {
    SerialFromZero(ByteBits(i));
  }

  lemma TableDone(tab: seq<bv16>)
    requires |tab| == 256 && forall k :: 0 <= k < 256 ==> IsEntry(tab[k], ToByte(k))
    ensures IsCrcTable(tab)
  {
  }

  // ------------------------------------------------------------------ the update

  function UpdateCrcCcitt(tab: seq<bv16>, crc: bv16, c: bv8): bv16
    requires |tab| == 256
  {
    XorWord(Shift8(crc), TableAt(tab, IndexOf(crc, c)))
  }

  function IndexOf(crc: bv16, c: bv8): bv8 {
    XorByte(High(crc), c)
  }

  function TableAt(tab: seq<bv16>, i: bv8): bv16
    requires |tab| == 256
  {
    tab[i as nat]
  }

  /** One table lookup does the work of eight clocks of the division register. */
  lemma LookupIsEightClocks(tab: seq<bv16>, crc: bv16, c: bv8)
    requires |tab| == 256 && IsCrcTable(tab)
    ensures WordBits(UpdateCrcCcitt(tab, crc, c)) == Serial(WordBits(crc), ByteBits(c))
  {
    hide *;
    var i := IndexOf(crc, c);
    EntryOf(tab, i);
    UpdateBits(tab, crc, c);
    IndexBits(crc, c);
    Halves(crc);
    LookupBits(ByteBits(High(crc)), ByteBits(Low(crc)), ByteBits(c));
  }

  lemma UpdateBits(tab: seq<bv16>, crc: bv16, c: bv8)
    requires |tab| == 256
    ensures WordBits(UpdateCrcCcitt(tab, crc, c))
         == Xor(WordBits(crc)[8..] + Zeros(8), WordBits(TableAt(tab, IndexOf(crc, c))))
  {
    hide WordBits, IndexOf, TableAt, XorWord, Shift8;
    WordBitsShift8(crc);
    WordBitsXor(Shift8(crc), TableAt(tab, IndexOf(crc, c)));
  }

  lemma IndexBits(crc: bv16, c: bv8)
    ensures ByteBits(IndexOf(crc, c)) == Xor(ByteBits(High(crc)), ByteBits(c))
  {
    hide ByteBits, High, XorByte;
    ByteBitsXor(High(crc), c);
  }

  lemma Halves(x: bv16)
    ensures WordBits(x) == ByteBits(High(x)) + ByteBits(Low(x))
  {
  }

  lemma LookupBits(h: Bits, l: Bits, c: Bits)
    requires |h| == |l| == |c| == 8
    ensures Xor((h + l)[8..] + Zeros(8), Remainder(Xor(h, c) + Zeros(16))) == Serial(h + l, c)
  {
    SplitPending(h, l, c);
    SerialIsRemainder(h + l, c);
    XorComm(l + Zeros(8), Remainder(Xor(h, c) + Zeros(16)));
    assert (h + l)[8..] == l;
  }

  /** What is pending splits into the part the table handles and a part that is only shifted. */
  lemma SplitPending(h: Bits, l: Bits, c: Bits)
    requires |h| == |l| == |c| == 8
    ensures Remainder(Pending(h + l, c)) == Xor(Remainder(Xor(h, c) + Zeros(16)), l + Zeros(8))
  {
    var low := l + Zeros(8);
    var a, b := Xor(h, c) + Zeros(16), Zeros(8) + low;
    assert Pending(h + l, c) == Xor(a, b);
    RemainderXor(a, b);
    LeadingZeros(8, low);
  }

  lemma XorComm(a: Bits, b: Bits)
    requires |a| == |b|
    ensures Xor(a, b) == Xor(b, a)
  {
  }

  /** The table-driven fold over a byte string. */
  function Fold(tab: seq<bv16>, crc: bv16, bytes: seq<bv8>): bv16
    requires |tab| == 256
    decreases |bytes|
  {
    if bytes == [] then crc else Fold(tab, UpdateCrcCcitt(tab, crc, bytes[0]), bytes[1..])
  }

  lemma {:induction false} FoldIsSerial(tab: seq<bv16>, crc: bv16, bytes: seq<bv8>)
    requires IsCrcTable(tab)
    ensures WordBits(Fold(tab, crc, bytes)) == Serial(WordBits(crc), BytesBits(bytes))
    decreases |bytes|
  {
    if bytes != [] {
      var crc' := UpdateCrcCcitt(tab, crc, bytes[0]);
      LookupIsEightClocks(tab, crc, bytes[0]);
      FoldIsSerial(tab, crc', bytes[1..]);
      SerialAppend(WordBits(crc), ByteBits(bytes[0]), BytesBits(bytes[1..]));
    }
  }

  /** The software CRC of a byte string is the remainder of the string, times x^16, on division
      by x^16 + x^12 + x^5 + 1; and it is the only 16-bit value with that property. */
  lemma CrcIsRemainder(tab: seq<bv16>, bytes: seq<bv8>)
    requires IsCrcTable(tab)
    ensures WordBits(Fold(tab, 0, bytes)) == Remainder(BytesBits(bytes) + Zeros(16))
    ensures forall crc: bv16, q ::
              IsDivision(BytesBits(bytes) + Zeros(16), q, WordBits(crc)) ==> crc == Fold(tab, 0, bytes)
  {
    FoldIsSerial(tab, 0, bytes);
    WordBitsGenerator();
    SerialFromZero(BytesBits(bytes));
    forall crc: bv16, q | IsDivision(BytesBits(bytes) + Zeros(16), q, WordBits(crc))
      ensures crc == Fold(tab, 0, bytes)
    {
      RemainderUnique(BytesBits(bytes) + Zeros(16), q, WordBits(crc));
      WordBitsInjective(crc, Fold(tab, 0, bytes));
    }
  }
}
