/** The 5-tuple that names a flow, the two hashes taken of it, and the 97-bit string that the
    flow accelerator's CRC runs over. */
module FlowKey {
  import opened Polynomials
  import opened CrcCcitt

  /** ctf_conn_tuple_t in the IPv4 build.  Addresses and ports are kept as the words the CPU
      loads: the CPU is little-endian and the bytes in memory are in network order. */
  datatype Tuple = Tuple(sip: bv32, dip: bv32, sp: bv16, dp: bv16, proto: bv8)

  const IP_PROT_TCP: bv8 := 6

  predicate IsTcp(t: Tuple) {
    t.proto == IP_PROT_TCP
  }

  const FA_NAPT_SZ: nat := 256
  const CTF_MAX_BUCKET_INDEX: nat := 4
  const CTF_MAX_FLOW_TABLE: nat := 1024

  // ------------------------------------------------------------------ words in memory

  function Mem32(x: bv32): (m: seq<bv8>)
    ensures |m| == 4
  {
    [(x & 0xff) as bv8, ((x >> 8) & 0xff) as bv8, ((x >> 16) & 0xff) as bv8, ((x >> 24) & 0xff) as bv8]
  }

  function Mem16(x: bv16): (m: seq<bv8>)
    ensures |m| == 2
  {
    [(x & 0xff) as bv8, ((x >> 8) & 0xff) as bv8]
  }

  lemma Mem32Injective(x: bv32, y: bv32)
    requires Mem32(x) == Mem32(y)
    ensures x == y
  {
    var a, b := Mem32(x), Mem32(y);
    assert a[0] == b[0] && a[1] == b[1] && a[2] == b[2] && a[3] == b[3];
  }

  lemma Mem16Injective(x: bv16, y: bv16)
    requires Mem16(x) == Mem16(y)
    ensures x == y
  {
    var a, b := Mem16(x), Mem16(y);
    assert a[0] == b[0] && a[1] == b[1];
  }

  // ------------------------------------------------------------------ the connection-cache hash

  /** FA_NAPT_HASH for an IPv4 tuple: a folded 32-bit sum. */
  function Hash(t: Tuple): (h: nat)
    ensures h < FA_NAPT_SZ
  {
    var sum: bv32 := t.sip + t.dip + (t.sp as bv32) + (t.dp as bv32) + (t.proto as bv32);
    var folded: bv32 := (sum >> 16) + (sum & 0xffff);
    (((folded >> 8) + (folded & 0xff)) & 0xff) as nat
  }

  // ------------------------------------------------------------------ the CRC key

  /** Source address, destination address, one bit for TCP, source port, destination port. */
  function KeyBits(t: Tuple): (k: Bits)
    ensures |k| == 97
  {
    BytesBits(Mem32(t.sip)) + BytesBits(Mem32(t.dip)) + [IsTcp(t)] + BytesBits(Mem16(t.sp)) + BytesBits(Mem16(t.dp))
  }

  lemma {:induction false} BytesBitsInjective(a: seq<bv8>, b: seq<bv8>)
    requires |a| == |b| && BytesBits(a) == BytesBits(b)
    ensures a == b
  {
    if a != [] {
      hide ByteBits;
      assert ByteBits(a[0]) == BytesBits(a)[..8] && BytesBits(a[1..]) == BytesBits(a)[8..];
      assert ByteBits(b[0]) == BytesBits(b)[..8] && BytesBits(b[1..]) == BytesBits(b)[8..];
      ByteBitsInjective(a[0], b[0]);
      BytesBitsInjective(a[1..], b[1..]);
    }
  }

  lemma {:induction false} BytesBitsConcat(a: seq<bv8>, b: seq<bv8>)
    ensures BytesBits(a + b) == BytesBits(a) + BytesBits(b)
  {
    hide ByteBits;
    if a == [] {
      assert a + b == b;
    } else {
      assert (a + b)[1..] == a[1..] + b;
      BytesBitsConcat(a[1..], b);
    }
  }

  /** The key keeps everything of the tuple but the protocol, of which it keeps only whether it
      is TCP. */
  lemma KeyBitsInjective(t: Tuple, u: Tuple)
    ensures KeyBits(t) == KeyBits(u) <==>
            t.sip == u.sip && t.dip == u.dip && t.sp == u.sp && t.dp == u.dp && IsTcp(t) == IsTcp(u)
  {
    if KeyBits(t) == KeyBits(u) {
      var k := KeyBits(t);
      KeyBitsParts(t);
      KeyBitsParts(u);
      BytesBitsInjective(Mem32(t.sip), Mem32(u.sip));
      BytesBitsInjective(Mem32(t.dip), Mem32(u.dip));
      BytesBitsInjective(Mem16(t.sp), Mem16(u.sp));
      BytesBitsInjective(Mem16(t.dp), Mem16(u.dp));
      Mem32Injective(t.sip, u.sip);
      Mem32Injective(t.dip, u.dip);
      Mem16Injective(t.sp, u.sp);
      Mem16Injective(t.dp, u.dp);
    }
  }

  lemma KeyBitsParts(t: Tuple)
    ensures var k := KeyBits(t);
            && k[..32] == BytesBits(Mem32(t.sip)) && k[32..64] == BytesBits(Mem32(t.dip)) && k[64] == IsTcp(t)
            && k[65..81] == BytesBits(Mem16(t.sp)) && k[81..] == BytesBits(Mem16(t.dp))
  {
    hide BytesBits, Mem32, Mem16;
  }

  // ------------------------------------------------------------------ shifting the string by one bit

  /** Every byte shifted left by one bit; the top bit of `last` comes in at the end. */
  function ShiftAll(s: seq<bv8>, last: bv8): (r: seq<bv8>)
    ensures |r| == |s|
  {
    seq(|s|, k requires 0 <= k < |s| => ShiftIn(s[k], if k + 1 < |s| then s[k + 1] else last))
  }

  lemma {:induction false} ShiftAllBits(s: seq<bv8>, last: bv8)
    requires s != []
    ensures BytesBits(ShiftAll(s, last)) == BytesBits(s)[1..] + [ByteBits(last)[0]]
  {
    hide ByteBits, ShiftIn;
    var next := if |s| > 1 then s[1] else last;
    ByteBitsShift(s[0], next);
    if |s| > 1 {
      ShiftAllBits(s[1..], last);
      assert ShiftAll(s, last)[1..] == ShiftAll(s[1..], last);
      assert ByteBits(next)[0] == BytesBits(s[1..])[0];
      ShiftJoin(ByteBits(s[0]), BytesBits(s[1..]), ByteBits(last)[0]);
    } else {
      assert BytesBits(s) == ByteBits(s[0]) + [];
      assert s[1..] == [] && ShiftAll(s, last) == [ShiftIn(s[0], last)];
    }
  }

  lemma ShiftJoin(a: Bits, b: Bits, last: bool)
    requires a != [] && b != []
    ensures (a[1..] + [b[0]]) + (b[1..] + [last]) == (a + b)[1..] + [last]
  {
  }

  /** The thirteen bytes that are fed to the CRC. */
  function Packed(t: Tuple): (s: seq<bv8>)
    ensures |s| == 13
  {
    ShiftAll([0] + Mem32(t.sip) + Mem32(t.dip), TcpFlag(t)) + Mem16(t.sp) + Mem16(t.dp)
  }

  function TcpFlag(t: Tuple): bv8 {
    if IsTcp(t) then 0x80 else 0
  }

  /** They hold seven zero bits and then the key. */
  lemma PackedBits(t: Tuple)
    ensures BytesBits(Packed(t)) == Zeros(7) + KeyBits(t)
  {
    var flag := TcpFlag(t);
    FlagBit(t);
    hide Mem32, Mem16, ByteBits;
    var src, dst := Mem32(t.sip), Mem32(t.dip);
    var head := [0] + src + dst;
    ZeroByte();
    BytesBitsConcat([0] + src, dst);
    BytesBitsConcat([0], src);
    assert BytesBits([0]) == ByteBits(0) + BytesBits([]);
    ShiftAllBits(head, flag);
    BytesBitsConcat(ShiftAll(head, flag), Mem16(t.sp));
    BytesBitsConcat(ShiftAll(head, flag) + Mem16(t.sp), Mem16(t.dp));
    hide BytesBits;
    PackedJoin(BytesBits(src), BytesBits(dst), IsTcp(t), BytesBits(Mem16(t.sp)), BytesBits(Mem16(t.dp)));
  }

  lemma PackedJoin(src: Bits, dst: Bits, tcp: bool, sp: Bits, dp: Bits)
    ensures (((Zeros(8) + src) + dst)[1..] + [tcp]) + sp + dp == Zeros(7) + (src + dst + [tcp] + sp + dp)
  {
  }

  lemma ZeroByte()
    ensures ByteBits(0) == Zeros(8)
  {
  }

  // ------------------------------------------------------------------ fa_crc_ccitt

  /** The flow accelerator's CRC of a tuple, as a polynomial: the remainder of the key. */
  function KeyRemainder(t: Tuple): (r: Bits)
    ensures |r| == 16
  {
    Remainder(KeyBits(t) + Zeros(16))
  }

  function Doubled(b: bv8): bv8 {
    b << 1
  }

  function WithLowBit(b: bv8): bv8 {
    b | 1
  }

  lemma LastByte(b: bv8)
    ensures Doubled(b) == ShiftIn(b, 0)
    ensures WithLowBit(Doubled(b)) == ShiftIn(b, 0x80)
  {
  }

  lemma FoldStep(tab: seq<bv16>, crc: bv16, bytes: seq<bv8>)
    requires |tab| == 256
    ensures bytes != [] ==> Fold(tab, crc, bytes) == Fold(tab, UpdateCrcCcitt(tab, crc, bytes[0]), bytes[1..])
    ensures bytes == [] ==> Fold(tab, crc, bytes) == crc
  {
  }

  lemma FlagBit(t: Tuple)
    ensures ByteBits(TcpFlag(t))[0] == IsTcp(t)
  {
  }

  /** Whatever the fold returns for the packed string is the remainder of the key alone. */
  lemma PackedCrc(tab: seq<bv16>, t: Tuple)
    requires |tab| == 256 && IsCrcTable(tab)
    ensures WordBits(Fold(tab, 0, Packed(t))) == KeyRemainder(t)
  {
    PackedBits(t);
    CrcIsRemainder(tab, Packed(t));
    hide KeyBits, Remainder, Packed;
    assert BytesBits(Packed(t)) + Zeros(16) == Zeros(7) + (KeyBits(t) + Zeros(16));
    LeadingZeros(7, KeyBits(t) + Zeros(16));
  }

  /** memset and the four memcpy calls of fa_crc_ccitt. */
  method LayOut(t: Tuple) returns (istr: array<bv8>)
    ensures fresh(istr) && istr[..] == [0] + Mem32(t.sip) + Mem32(t.dip) + Mem16(t.sp) + Mem16(t.dp)
  {
    hide Mem32, Mem16;
    istr := new bv8[13](_ => 0);
    var sip, dip, sp, dp := Mem32(t.sip), Mem32(t.dip), Mem16(t.sp), Mem16(t.dp);
    forall k | 0 <= k < 4 { istr[1 + k] := sip[k]; }
    forall k | 0 <= k < 4 { istr[5 + k] := dip[k]; }
    forall k | 0 <= k < 2 { istr[9 + k] := sp[k]; }
    forall k | 0 <= k < 2 { istr[11 + k] := dp[k]; }
  }

  /** The in-place shift: the first nine bytes move left by one bit, the TCP flag comes in. */
  method ShiftKey(istr: array<bv8>, tcp: bool)
    requires istr.Length == 13
    modifies istr
    ensures istr[..] == ShiftAll(old(istr[..9]), if tcp then 0x80 else 0) + old(istr[9..])
  {
    hide ShiftIn, Doubled, WithLowBit;
    var i := 0;
    while i < 8
      invariant 0 <= i <= 8
      invariant forall k :: 0 <= k < i ==> istr[k] == ShiftIn(old(istr[k]), old(istr[k + 1]))
      invariant forall k :: i <= k < 13 ==> istr[k] == old(istr[k])
    {
      istr[i] := ShiftIn(istr[i], istr[i + 1]);
      i := i + 1;
    }
    LastByte(istr[i]);
    istr[i] := Doubled(istr[i]);
    if tcp {
      istr[i] := WithLowBit(istr[i]);
    }
  }

  lemma PackedIs(t: Tuple, was: seq<bv8>, s: seq<bv8>)
    requires was == [0] + Mem32(t.sip) + Mem32(t.dip) + Mem16(t.sp) + Mem16(t.dp)
    requires s == ShiftAll(was[..9], if t.proto == IP_PROT_TCP then 0x80 else 0) + was[9..]
    ensures s == Packed(t)
  {
    hide Mem32, Mem16, ShiftAll;
    assert was[..9] == [0] + Mem32(t.sip) + Mem32(t.dip);
    assert was[9..] == Mem16(t.sp) + Mem16(t.dp);
  }

  method FaCrcCcitt(tab: array<bv16>, t: Tuple) returns (crc: bv16)
    requires tab.Length == 256 && IsCrcTable(tab[..])
    ensures WordBits(crc) == KeyRemainder(t)
  {
    hide *;
    var istr := LayOut(t);
    ghost var was := istr[..];
    ShiftKey(istr, t.proto == IP_PROT_TCP);
    PackedIs(t, was, istr[..]);
    crc := 0;
    var i := 0;
    while i < istr.Length
      invariant 0 <= i <= istr.Length
      invariant Fold(tab[..], crc, istr[i..]) == Fold(tab[..], 0, Packed(t))
    {
      FoldStep(tab[..], crc, istr[i..]);
      assert istr[i..][1..] == istr[i + 1..];
      crc := UpdateCrcCcitt(tab[..], crc, istr[i]);
      i := i + 1;
    }
    FoldStep(tab[..], crc, istr[i..]);
    PackedCrc(tab[..], t);
  }

  // ------------------------------------------------------------------ the bucket

  /** The number a bit string writes in base two. */
  function Value(s: Bits): (v: nat)
    ensures v < Power2(|s|)
  {
    if s == [] then 0 else Weight(s[0], Power2(|s| - 1)) + Value(s[1..])
  }

  function Weight(bit: bool, w: nat): nat {
    if bit then w else 0
  }

  function Power2(n: nat): (p: nat)
    ensures p >= 1
  {
    if n == 0 then 1 else 2 * Power2(n - 1)
  }

  /** The bucket of a flow: the low eight coefficients of the remainder of its key. */
  function Bucket(t: Tuple): (b: nat)
    ensures b < 256
  {
    BucketRange(KeyRemainder(t)[8..]);
    Value(KeyRemainder(t)[8..])
  }

  lemma BucketRange(s: Bits)
    requires |s| == 8
    ensures Value(s) < 256
  {
    assert Power2(4) == 16;
    assert Power2(8) == 16 * Power2(4);
  }

  lemma ByteValue(b: bv8)
    ensures Value(ByteBits(b)) == b as nat
  {
    hide Weight, Value;
    ValueOfEight(ByteBits(b));
    ByteSum(b);
  }

  lemma ByteSum(b: bv8)
    ensures b as nat == Weight(b & 0x80 != 0, 128) + Weight(b & 0x40 != 0, 64) + Weight(b & 0x20 != 0, 32)
                      + Weight(b & 0x10 != 0, 16) + Weight(b & 0x08 != 0, 8) + Weight(b & 0x04 != 0, 4)
                      + Weight(b & 0x02 != 0, 2) + Weight(b & 0x01 != 0, 1)
  {
  }

  lemma ValueOfEight(s: Bits)
    requires |s| == 8
    ensures Value(s) == Weight(s[0], 128) + Weight(s[1], 64) + Weight(s[2], 32) + Weight(s[3], 16)
                      + Weight(s[4], 8) + Weight(s[5], 4) + Weight(s[6], 2) + Weight(s[7], 1)
  {
    hide Value, Weight;
    Powers();
    hide Power2;
    ValueFrom(s, 0); ValueFrom(s, 1); ValueFrom(s, 2); ValueFrom(s, 3);
    ValueFrom(s, 4); ValueFrom(s, 5); ValueFrom(s, 6); ValueFrom(s, 7);
    assert s[0..] == s;
  }

  lemma Powers()
    ensures Power2(0) == 1 && Power2(1) == 2 && Power2(2) == 4 && Power2(3) == 8
    ensures Power2(4) == 16 && Power2(5) == 32 && Power2(6) == 64 && Power2(7) == 128
  {
    assert Power2(4) == 16;
    assert Power2(6) == 64;
  }

  lemma ValueFrom(s: Bits, k: nat)
    requires k < |s|
    ensures Value(s[k..]) == Weight(s[k], Power2(|s| - k - 1)) + Value(s[k + 1..])
    ensures Value(s[|s|..]) == 0
  {
    assert s[k..][1..] == s[k + 1..];
  }

  lemma {:induction false} ValueInjective(a: Bits, b: Bits)
    requires |a| == |b| && Value(a) == Value(b)
    ensures a == b
  {
    if a != [] {
      ValueInjective(a[1..], b[1..]);
      assert a == [a[0]] + a[1..] && b == [b[0]] + b[1..];
    }
  }

  /** `fa_crc_ccitt(ipc) & 0xff` is the bucket. */
  lemma LowByteIsBucket(crc: bv16, t: Tuple)
    requires WordBits(crc) == KeyRemainder(t)
    ensures Low(crc) as nat == Bucket(t)
  {
    assert WordBits(crc)[8..] == ByteBits(Low(crc));
    ByteValue(Low(crc));
  }
}
