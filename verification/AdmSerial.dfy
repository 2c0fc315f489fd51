/** The bit-banged serial interface to an ADM switch: what a device that looks at the data pin on
    every rising clock edge sees of adm_write, adm_wreg and adm_read. */
module AdmSerial {
  import opened Polynomials
  import opened CrcCcitt

  /** One rising edge of EESK: the chip-select and the data pin. */
  datatype Edge = Edge(cs: bool, di: bool)

  function Edges(cs: bool, bits: seq<bool>): (r: seq<Edge>)
    ensures |r| == |bits| && forall k :: 0 <= k < |r| ==> r[k] == Edge(cs, bits[k])
  {
    seq(|bits|, k requires 0 <= k < |bits| => Edge(cs, bits[k]))
  }

  function Half(mask: bv8): bv8 {
    mask >> 1
  }

  /** The mask on its way from the most significant bit to nothing. */
  function MaskAt(j: nat): bv8
    requires j <= 8
  {
    if j == 8 then 0 else Mask(j)
  }

  lemma HalfMask(j: nat)
    requires j < 8
    ensures Half(MaskAt(j)) == MaskAt(j + 1) && MaskAt(j) != 0
  {
  }

  predicate Test(byte: bv8, mask: bv8) {
    mask & byte != 0
  }

  lemma MaskEnds()
    ensures MaskAt(0) == 0x80 && MaskAt(8) == 0
  {
  }

  lemma TestMask(byte: bv8, j: nat)
    requires j < 8
    ensures Test(byte, MaskAt(j)) == Bit(byte, j)
  {
  }

  lemma {:induction false} BitOfBytes(buf: seq<bv8>, i: nat, j: nat)
    requires i < |buf| && j < 8
    ensures BytesBits(buf)[8 * i + j] == Bit(buf[i], j)
  {
    hide Bit;
    if i > 0 {
      BitOfBytes(buf[1..], i - 1, j);
      assert BytesBits(buf)[8 * i + j] == BytesBits(buf[1..])[8 * (i - 1) + j];
    }
  }

  function SetBit(byte: bv8, mask: bv8): bv8 {
    byte | mask
  }

  lemma SetBitAt(byte: bv8, j: nat, k: nat)
    requires j < 8 && k < 8
    ensures Bit(SetBit(byte, Mask(j)), k) <==> k == j || Bit(byte, k)
  {
  }

  // ------------------------------------------------------------------ the command of adm_wreg

  /** Start bit and opcode, address, value, and five bits that are not sent. */
  function Command(addr: bv8, val: bv16): (r: seq<bv8>)
    ensures |r| == 4
  {
    [0xA0 | (addr >> 3), (addr << 5) | ((val >> 11) as bv8), ((val >> 3) & 0xff) as bv8, ((val << 5) & 0xff) as bv8]
  }

  /** 101, the eight address bits and the sixteen value bits. */
  function Wanted(addr: bv8, val: bv16): (r: seq<bool>)
    ensures |r| == 27
  {
    [true, false, true] + ByteBits(addr) + WordBits(val)
  }

  predicate WantedAt(addr: bv8, val: bv16, n: nat)
    requires n < 27
  {
    if n < 3 then n != 1
    else if n < 11 then Bit(addr, n - 3)
    else if n < 19 then Bit(High(val), n - 11)
    else Bit(Low(val), n - 19)
  }

  lemma WantedBits(addr: bv8, val: bv16, n: nat)
    requires n < 27
    ensures Wanted(addr, val)[n] == WantedAt(addr, val, n)
  {
    hide Bit, High, Low;
  }

  lemma CommandBit(addr: bv8, val: bv16, n: nat)
    requires n < 27
    ensures Bit(Command(addr, val)[n / 8], n % 8) == WantedAt(addr, val, n)
  {
    if n < 8 {
      Command0(addr);
    } else if n < 16 {
      Command1(addr, val);
    } else if n < 24 {
      Command2(val);
    } else {
      Command3(val);
    }
    hide Bit, High, Low;
  }

  /** The first 27 bits of the command are what the chip expects. */
  lemma CommandBits(addr: bv8, val: bv16)
    ensures BytesBits(Command(addr, val))[..27] == Wanted(addr, val)
  {
    var b := Command(addr, val);
    hide *;
    forall n | 0 <= n < 27 ensures BytesBits(b)[n] == Wanted(addr, val)[n] {
      assert 8 * (n / 8) + n % 8 == n;
      BitOfBytes(b, n / 8, n % 8);
      CommandBit(addr, val, n);
      WantedBits(addr, val, n);
    }
  }

  lemma Command0(addr: bv8)
    ensures var c: bv8 := 0xA0 | (addr >> 3);
            && Bit(c, 0) && !Bit(c, 1) && Bit(c, 2) && Bit(c, 3) == Bit(addr, 0) && Bit(c, 4) == Bit(addr, 1)
            && Bit(c, 5) == Bit(addr, 2) && Bit(c, 6) == Bit(addr, 3) && Bit(c, 7) == Bit(addr, 4)
  {
  }

  lemma Command1(addr: bv8, val: bv16)
    ensures var c: bv8 := (addr << 5) | ((val >> 11) as bv8);
            && Bit(c, 0) == Bit(addr, 5) && Bit(c, 1) == Bit(addr, 6) && Bit(c, 2) == Bit(addr, 7)
            && Bit(c, 3) == Bit(High(val), 0) && Bit(c, 4) == Bit(High(val), 1) && Bit(c, 5) == Bit(High(val), 2)
            && Bit(c, 6) == Bit(High(val), 3) && Bit(c, 7) == Bit(High(val), 4)
  {
    UpperFive(val);
    hide High;
    Joined(addr, High(val));
  }

  lemma UpperFive(val: bv16)
    ensures (val >> 11) as bv8 == High(val) >> 3
  {
  }

  lemma Joined(a: bv8, b: bv8)
    ensures var c: bv8 := (a << 5) | (b >> 3);
            && Bit(c, 0) == Bit(a, 5) && Bit(c, 1) == Bit(a, 6) && Bit(c, 2) == Bit(a, 7)
            && Bit(c, 3) == Bit(b, 0) && Bit(c, 4) == Bit(b, 1) && Bit(c, 5) == Bit(b, 2)
            && Bit(c, 6) == Bit(b, 3) && Bit(c, 7) == Bit(b, 4)
  {
    JoinedUpper(a, b);
    JoinedLower(a, b);
    hide Bit;
  }

  lemma JoinedUpper(a: bv8, b: bv8)
    ensures var c: bv8 := (a << 5) | (b >> 3);
            Bit(c, 0) == Bit(a, 5) && Bit(c, 1) == Bit(a, 6) && Bit(c, 2) == Bit(a, 7)
  {
  }

  lemma JoinedLower(a: bv8, b: bv8)
    ensures var c: bv8 := (a << 5) | (b >> 3);
            && Bit(c, 3) == Bit(b, 0) && Bit(c, 4) == Bit(b, 1) && Bit(c, 5) == Bit(b, 2)
            && Bit(c, 6) == Bit(b, 3) && Bit(c, 7) == Bit(b, 4)
  {
  }

  lemma Command2(val: bv16)
    ensures var c: bv8 := ((val >> 3) & 0xff) as bv8;
            && Bit(c, 0) == Bit(High(val), 5) && Bit(c, 1) == Bit(High(val), 6) && Bit(c, 2) == Bit(High(val), 7)
            && Bit(c, 3) == Bit(Low(val), 0) && Bit(c, 4) == Bit(Low(val), 1) && Bit(c, 5) == Bit(Low(val), 2)
            && Bit(c, 6) == Bit(Low(val), 3) && Bit(c, 7) == Bit(Low(val), 4)
  {
    Middle(val);
    hide High, Low;
    Joined(High(val), Low(val));
  }

  lemma Middle(val: bv16)
    ensures ((val >> 3) & 0xff) as bv8 == (High(val) << 5) | (Low(val) >> 3)
  {
  }

  lemma Command3(val: bv16)
    ensures var c: bv8 := ((val << 5) & 0xff) as bv8;
            Bit(c, 0) == Bit(Low(val), 5) && Bit(c, 1) == Bit(Low(val), 6) && Bit(c, 2) == Bit(Low(val), 7)
  {
  }

  // ------------------------------------------------------------------ the pins

  function Len(bits: nat): nat {
    (bits + 7) / 8
  }

  lemma LenIs(bits: nat)
    ensures bits <= 8 * Len(bits) < bits + 8
  {
  }

  /** The three pins, and what has been seen on the rising edges of the clock. */
  class AdmBus {
    var cs: bool
    var sk: bool
    var di: bool
    ghost var seen: seq<Edge>

    constructor ()
      ensures !cs && !sk && !di && seen == []
    {
      cs, sk, di, seen := false, false, false, [];
    }

    /** The clock pin; a device samples on its rising edge. */
    method Clock(high: bool)
      modifies `sk, `seen
      ensures sk == high
      ensures seen == old(seen) + if high && !old(sk) then [Edge(cs, di)] else []
    {
      if high && !sk {
        seen := seen + [Edge(cs, di)];
      }
      sk := high;
    }

    /** One bit: clock low, data, clock high. */
    method PutBit(bit: bool)
      modifies `sk, `di, `seen
      ensures sk && di == bit && seen == old(seen) + [Edge(cs, bit)]
    {
      Clock(false);
      di := bit;
      Clock(true);
    }

    /** One byte, or what is left of the bits. */
    method PutByte(byte: bv8, bits0: nat) returns (bits: nat)
      modifies `sk, `di, `seen
      ensures bits == if bits0 < 8 then 0 else bits0 - 8
      ensures seen == old(seen) + Edges(cs, ByteBits(byte)[..bits0 - bits])
      ensures bits0 > 0 ==> di == Bit(byte, bits0 - bits - 1)
      ensures bits0 == 0 ==> di == old(di)
    {
      hide Test, Bit, MaskAt, Half, ByteBits, Edges;
      bits := bits0;
      var mask: bv8 := 0x80;
      MaskEnds();
      ghost var j := 0;
      assert Edges(cs, ByteBits(byte)[..0]) == [];
      while mask != 0 && bits > 0
        invariant 0 <= j <= 8 && mask == MaskAt(j) && j <= bits0 && bits == bits0 - j
        invariant seen == old(seen) + Edges(cs, ByteBits(byte)[..j])
        invariant di == if j > 0 then Bit(byte, j - 1) else old(di)
        decreases bits
      {
        HalfMask(j);
        TestMask(byte, j);
        ByteStep(cs, byte, j);
        PutBit(Test(byte, mask));
        mask := Half(mask);
        bits := bits - 1;
        j := j + 1;
      }
      if j < 8 {
        HalfMask(j);
      }
    }

    /** adm_write: a device sees the first `bits` bits of the buffer, most significant first. */
    method AdmWrite(select: bool, buf: seq<bv8>, bits: nat)
      requires Len(bits) <= |buf|
      modifies this
      ensures seen == old(seen) + Edges(select, Front(buf, bits))
      ensures !cs && !sk
      ensures bits > 0 ==> di == BytesBits(buf)[bits - 1]
    {
      LenIs(bits);
      hide BytesBits, ByteBits, Front, Edges, Bit, Len;
      cs := select;
      var len := Len(bits);
      var i, left := 0, bits;
      NothingSent(select, buf);
      ghost var done := 0;
      while i < len
        invariant i <= len && cs == select
        invariant done == bits - left && (if i < len then done == 8 * i else left == 0)
        invariant seen == old(seen) + Edges(select, Front(buf, done))
        invariant done > 0 ==> di == BytesBits(buf)[done - 1]
      {
        ghost var more := Least(left);
        NextBits(select, buf, i, more);
        LastBit(buf, i, more);
        left := PutByte(buf[i], left);
        i := i + 1;
        done := done + more;
      }
      Clock(false);
      if select {
        cs := false;
      }
    }

    /** adm_adclk. */
    method AdmAdclk(clocks: nat)
      requires !sk
      modifies `sk, `seen
      ensures !sk && seen == old(seen) + Same(Edge(cs, di), clocks)
    {
      for i := 0 to clocks
        invariant !sk && seen == old(seen) + Same(Edge(cs, di), i)
      {
        Clock(true);
        Clock(false);
        assert Same(Edge(cs, di), i + 1) == Same(Edge(cs, di), i) + [Edge(cs, di)];
      }
    }

    /** One byte of adm_read: the clock goes high, the pin is sampled, the clock goes low. */
    method GetByte(input: seq<bool>, from: nat, left0: nat) returns (byte: bv8, left: nat)
      requires from + left0 <= |input| && !sk
      modifies `sk, `seen
      ensures !sk && left == left0 - Least(left0)
      ensures ByteBits(byte) == Padded(input, from, Least(left0))
      ensures seen == old(seen) + Same(Edge(cs, di), Least(left0))
    {
      hide Bit, MaskAt, Half, ByteBits, SetBit;
      left := left0;
      var mask: bv8 := 0x80;
      byte := 0;
      MaskEnds();
      ZeroByte(input, from);
      var j := 0;
      while mask != 0 && left > 0
        invariant 0 <= j <= 8 && mask == MaskAt(j) && j <= left0 && left == left0 - j && !sk
        invariant ByteBits(byte) == Padded(input, from, j)
        invariant seen == old(seen) + Same(Edge(cs, di), j)
        decreases left
      {
        HalfMask(j);
        PaddedStep(byte, input, from, j);
        Clock(true);
        if input[from + j] {
          byte := SetBit(byte, mask);
        }
        Clock(false);
        mask := Half(mask);
        left := left - 1;
        j := j + 1;
      }
      if j < 8 {
        HalfMask(j);
      }
    }

    /** adm_read from a device that shows input[k] at the k-th rising edge. */
    method AdmRead(select: bool, input: seq<bool>, bits: nat) returns (buf: seq<bv8>)
      requires bits <= |input| && !sk
      modifies this
      ensures !cs && !sk
      ensures ReadAs(buf, input, bits)
      ensures seen == old(seen) + Same(Edge(select, di), bits)
    {
      hide ByteBits, Padded, Bit;
      cs := select;
      var len := Len(bits);
      var i, left := 0, bits;
      buf := [];
      while i < len
        invariant i <= len && cs == select && !sk && |buf| == i && di == old(di)
        invariant left == if 8 * i <= bits then bits - 8 * i else 0
        invariant forall k :: 0 <= k < i ==> ByteBits(buf[k]) == Padded(input, 8 * k, Least(bits - 8 * k))
        invariant seen == old(seen) + Same(Edge(select, di), bits - left)
      {
        var byte;
        byte, left := GetByte(input, 8 * i, left);
        buf := buf + [byte];
        i := i + 1;
      }
      if select {
        cs := false;
      }
    }

    /** adm_wreg: while it is selected the chip sees 101, the address and the value; two more
        clocks follow with the chip not selected. */
    method AdmWreg(addr: bv8, val: bv16)
      modifies this
      ensures !cs && !sk
      ensures seen == old(seen) + Edges(true, Wanted(addr, val)) + Same(Edge(false, Bit(Low(val), 7)), 2)
    {
      hide Command, BytesBits, Wanted, Edges, Same, Bit;
      // adm_enout: all pins to 0
      Clock(false);
      cs, di := false, false;
      CommandBits(addr, val);
      WantedBits(addr, val, 26);
      AdmWrite(true, Command(addr, val), 27);
      AdmAdclk(2);
    }
  }

  function Same(e: Edge, n: nat): (r: seq<Edge>)
    ensures |r| == n && forall k :: 0 <= k < n ==> r[k] == e
  {
    seq(n, _ => e)
  }

  /** The first n bits of a buffer. */
  function Front(buf: seq<bv8>, n: nat): (r: seq<bool>)
    requires n <= 8 * |buf|
    ensures |r| == n
  {
    BytesBits(buf)[..n]
  }

  lemma NothingSent(select: bool, buf: seq<bv8>)
    ensures Edges(select, Front(buf, 0)) == []
  {
  }

  lemma EdgesConcat(select: bool, a: seq<bool>, b: seq<bool>)
    ensures Edges(select, a + b) == Edges(select, a) + Edges(select, b)
  {
  }

  lemma ByteStep(select: bool, byte: bv8, j: nat)
    requires j < 8
    ensures Edges(select, ByteBits(byte)[..j + 1]) == Edges(select, ByteBits(byte)[..j]) + [Edge(select, Bit(byte, j))]
  {
    hide Bit;
  }

  lemma NextBits(select: bool, buf: seq<bv8>, i: nat, more: nat)
    requires i < |buf| && more <= 8
    ensures Edges(select, Front(buf, 8 * i + more))
         == Edges(select, Front(buf, 8 * i)) + Edges(select, ByteBits(buf[i])[..more])
  {
    hide *;
    var a, b := Front(buf, 8 * i), ByteBits(buf[i])[..more];
    assert Front(buf, 8 * i + more) == a + b by { FrontGrows(buf, i, more); }
    EdgesConcat(select, a, b);
  }

  lemma LastBit(buf: seq<bv8>, i: nat, more: nat)
    requires i < |buf| && more <= 8
    ensures more > 0 ==> BytesBits(buf)[8 * i + more - 1] == Bit(buf[i], more - 1)
  {
    hide Bit, BytesBits;
    if more > 0 {
      BitOfBytes(buf, i, more - 1);
    }
  }

  lemma FrontGrows(buf: seq<bv8>, i: nat, more: nat)
    requires i < |buf| && more <= 8
    ensures Front(buf, 8 * i + more) == Front(buf, 8 * i) + ByteBits(buf[i])[..more]
  {
    hide *;
    var a, b, c := Front(buf, 8 * i + more), Front(buf, 8 * i), ByteBits(buf[i])[..more];
    forall n | 0 <= n < 8 * i + more ensures a[n] == (b + c)[n] {
      FrontAt(buf, i, more, n);
    }
  }

  lemma FrontAt(buf: seq<bv8>, i: nat, more: nat, n: nat)
    requires i < |buf| && more <= 8 && n < 8 * i + more
    ensures Front(buf, 8 * i + more)[n]
         == if n < 8 * i then Front(buf, 8 * i)[n] else ByteBits(buf[i])[..more][n - 8 * i]
  {
    hide Bit, BytesBits;
    if n >= 8 * i {
      BitOfBytes(buf, i, n - 8 * i);
    }
  }

  // ------------------------------------------------------------------ reading

  /** The bits read so far, filled up with zeros to whole bytes. */
  function Padded(input: seq<bool>, from: nat, n: nat): (r: seq<bool>)
    requires from + n <= |input| && n <= 8
    ensures |r| == 8
  {
    input[from..from + n] + Zeros(8 - n)
  }

  lemma PaddedStep(byte: bv8, input: seq<bool>, from: nat, j: nat)
    requires j < 8 && from + j < |input| && ByteBits(byte) == Padded(input, from, j)
    ensures ByteBits(if input[from + j] then SetBit(byte, MaskAt(j)) else byte) == Padded(input, from, j + 1)
  {
    var next := if input[from + j] then SetBit(byte, Mask(j)) else byte;
    forall k | 0 <= k < 8 ensures ByteBits(next)[k] == Padded(input, from, j + 1)[k] {
      SetBitAt(byte, j, k);
      assert ByteBits(byte)[k] == Padded(input, from, j)[k];
    }
  }

  function Least(n: int): (r: nat) {
    if n < 0 then 0 else if n < 8 then n else 8
  }

  lemma ZeroByte(input: seq<bool>, from: nat)
    requires from <= |input|
    ensures ByteBits(0) == Padded(input, from, 0)
  {
  }

  /** Each byte holds the eight input bits of its turn, the last one filled up with zeros. */
  ghost predicate ReadAs(buf: seq<bv8>, input: seq<bool>, bits: nat)
    requires bits <= |input|
  {
    |buf| == Len(bits) &&
    forall k :: 0 <= k < |buf| ==> ByteBits(buf[k]) == Padded(input, 8 * k, Least(bits - 8 * k))
  }

  /** The bits of what was read are the input, in order. */
  lemma ReadIsInput(buf: seq<bv8>, input: seq<bool>, bits: nat)
    requires bits <= |input| && ReadAs(buf, input, bits)
    ensures Front(buf, bits) == input[..bits]
  {
    hide BytesBits, Bit;
    forall n | 0 <= n < bits ensures BytesBits(buf)[n] == input[n] {
      var k, j := n / 8, n % 8;
      BitOfBytes(buf, k, j);
      assert ByteBits(buf[k])[j] == Padded(input, 8 * k, Least(bits - 8 * k))[j];
    }
  }

  /** Reading what adm_write sends gives the buffer back. */
  lemma ReadReturnsWritten(sent: seq<bv8>, got: seq<bv8>)
    requires ReadAs(got, Front(sent, 8 * |sent|), 8 * |sent|)
    ensures got == sent
  {
    ReadIsInput(got, Front(sent, 8 * |sent|), 8 * |sent|);
    hide BytesBits, Bit, ReadAs;
    assert |got| == |sent| by { LenOfRead(sent, got); }
    forall k | 0 <= k < |sent| ensures got[k] == sent[k] {
      forall j | 0 <= j < 8 ensures ByteBits(got[k])[j] == ByteBits(sent[k])[j] {
        BitOfBytes(got, k, j);
        BitOfBytes(sent, k, j);
        assert Front(got, 8 * |sent|)[8 * k + j] == Front(sent, 8 * |sent|)[8 * k + j];
      }
      ByteBitsInjective(got[k], sent[k]);
    }
  }

  lemma LenOfRead(sent: seq<bv8>, got: seq<bv8>)
    requires ReadAs(got, Front(sent, 8 * |sent|), 8 * |sent|)
    ensures |got| == |sent|
  {
  }
}
