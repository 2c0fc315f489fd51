/** Numbers and the words they are packed into. */
module Numbers {

  // ------------------------------------------------------------------ an index, and back

  /** The word with these binary digits. */
  function ToWord(n: nat): bv32 {
    if n == 0 then 0 else if n % 2 == 1 then TwiceOne(ToWord(n / 2)) else Twice(ToWord(n / 2))
  }

  function Twice(w: bv32): bv32 {
    w << 1
  }

  function TwiceOne(w: bv32): bv32 {
    (w << 1) | 1
  }

  lemma Doubled(w: bv32)
    requires w < 0x10000
    ensures (w << 1) as nat == 2 * (w as nat) && ((w << 1) | 1) as nat == 2 * (w as nat) + 1
  {
  }

  lemma TwiceIs(w: bv32)
    requires w < 0x10000
    ensures Twice(w) as nat == 2 * (w as nat) && TwiceOne(w) as nat == 2 * (w as nat) + 1
  {
    Doubled(w);
  }

  function AsNumber(w: bv32): nat {
    w as nat
  }

  lemma Doubles(w: bv32)
    requires AsNumber(w) < 0x10000
    ensures AsNumber(Twice(w)) == 2 * AsNumber(w) && AsNumber(TwiceOne(w)) == 2 * AsNumber(w) + 1
  {
    Below(w);
    hide Twice, TwiceOne;
    TwiceIs(w);
  }

  lemma Below(w: bv32)
    requires AsNumber(w) < 0x10000
    ensures w < 0x10000
  {
  }

  lemma {:induction false} WordIs(n: nat)
    requires n < 0x10000
    ensures AsNumber(ToWord(n)) == n
  {
    if n > 0 {
      WordIs(n / 2);
      hide AsNumber, Twice, TwiceOne;
      Doubles(ToWord(n / 2));
    }
  }

  lemma NumberBack(w: bv32)
    ensures AsNumber(w) as bv32 == w
  {
  }

  /** An index that is packed into a register word and taken out again is the same index. */
  lemma IndexBack(n: nat)
    requires n < 0x10000
    ensures (n as bv32) as nat == n
  {
    WordIs(n);
    NumberBack(ToWord(n));
  }

  // ------------------------------------------------------------------ octets, and their number

  /** One more octet at the low end. */
  function More(x: bv32, b: bv8): bv32 {
    (x << 8) | (b as bv32)
  }

  lemma Joined(x: bv32, b: bv8)
    requires x < 0x1000000
    ensures ((x << 8) | (b as bv32)) as nat == 0x100 * (x as nat) + b as nat
  {
  }

  lemma MoreIs(x: bv32, b: bv8)
    requires x < 0x1000000
    ensures More(x, b) as nat == 0x100 * (x as nat) + b as nat
  {
    Joined(x, b);
  }

  function More16(x: bv16, b: bv8): bv16 {
    (x << 8) | (b as bv16)
  }

  lemma Joined16(x: bv16, b: bv8)
    requires x < 0x100
    ensures ((x << 8) | (b as bv16)) as nat == 0x100 * (x as nat) + b as nat
  {
  }

  lemma More16Is(x: bv16, b: bv8)
    requires x < 0x100
    ensures More16(x, b) as nat == 0x100 * (x as nat) + b as nat
  {
    Joined16(x, b);
  }

  lemma WideOctet(a: bv8)
    ensures (a as bv16) as nat == a as nat && a as bv16 < 0x100
  {
  }
}
