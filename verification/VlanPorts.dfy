/** VLAN port lists: the tokenizer loop over a string such as "0 1 2t 8*u" and the VLAN table word
    that is built from it. */
module VlanPorts {
  import opened Options

  // ------------------------------------------------------------------ tokens

  /** The length of the token at the head of s: up to the first space or the end. */
  function TokenLen(s: string): (n: nat)
    ensures n <= |s| && (n < |s| ==> s[n] == ' ') && forall j :: 0 <= j < n ==> s[j] != ' '
  {
    if s == [] || s[0] == ' ' then 0 else 1 + TokenLen(s[1..])
  }

  /** The tokens of a port list. */
  function Tokens(s: string): (r: seq<string>)
    decreases |s|
  {
    if s == [] then []
    else if s[0] == ' ' then Tokens(s[1..])
    else
      var n := TokenLen(s);
      [s[..n]] + Tokens(s[n..])
  }

  function Squeeze(s: string): string {
    if s == [] then [] else (if s[0] == ' ' then [] else [s[0]]) + Squeeze(s[1..])
  }

  function Join(toks: seq<string>): string {
    if toks == [] then [] else toks[0] + Join(toks[1..])
  }

  /** How many tokens start in s, when `open` says that one is open in front of it. */
  function Starts(s: string, open: bool): nat {
    if s == [] then 0
    else if s[0] == ' ' then Starts(s[1..], false)
    else (if open then 0 else 1) + Starts(s[1..], true)
  }

  lemma {:induction false} SqueezeToken(s: string, n: nat)
    requires n <= |s| && forall j :: 0 <= j < n ==> s[j] != ' '
    ensures Squeeze(s) == s[..n] + Squeeze(s[n..])
    ensures Starts(s, true) == Starts(s[n..], true)
  {
    if n > 0 {
      SqueezeToken(s[1..], n - 1);
      assert s[1..][n - 1..] == s[n..];
      assert s[..n] == [s[0]] + s[1..][..n - 1];
    }
  }

  /** The tokens are the space-separated pieces of the string, each once and in order: none is
      empty or holds a space, together they are the string without its spaces, and there are as
      many as there are places where one starts. */
  lemma {:induction false} TokensAre(s: string)
    ensures forall t :: t in Tokens(s) ==> t != [] && ' ' !in t
    ensures Join(Tokens(s)) == Squeeze(s) && |Tokens(s)| == Starts(s, false)
    decreases |s|
  {
    if s == [] {
    } else if s[0] == ' ' {
      TokensAre(s[1..]);
    } else {
      var n := TokenLen(s);
      TokensAre(s[n..]);
      SqueezeToken(s, n);
      SqueezeToken(s[1..], n - 1);
      assert s[1..][n - 1..] == s[n..];
      assert Starts(s[n..], true) == Starts(s[n..], false);
      assert Tokens(s)[1..] == Tokens(s[n..]);
    }
  }

  // ------------------------------------------------------------------ bits of a register word

  const BITS: nat := 18

  /** `1 << n`. */
  function Pow(n: nat): bv32
    requires n < BITS
  {
    if n < 9 then
      if n == 0 then 0x1 else if n == 1 then 0x2 else if n == 2 then 0x4 else if n == 3 then 0x8
      else if n == 4 then 0x10 else if n == 5 then 0x20 else if n == 6 then 0x40 else if n == 7 then 0x80 else 0x100
    else
      if n == 9 then 0x200 else if n == 10 then 0x400 else if n == 11 then 0x800 else if n == 12 then 0x1000
      else if n == 13 then 0x2000 else if n == 14 then 0x4000 else if n == 15 then 0x8000
      else if n == 16 then 0x10000 else 0x20000
  }

  function And(w: bv32, m: bv32): bv32 {
    w & m
  }

  predicate Meets(w: bv32, m: bv32) {
    And(w, m) != 0
  }

  predicate Bit(w: bv32, n: nat)
    requires n < BITS
  {
    Meets(w, Pow(n))
  }

  function Or(a: bv32, b: bv32): bv32 {
    a | b
  }

  lemma Distributes(a: bv32, b: bv32, m: bv32)
    ensures And(Or(a, b), m) == Or(And(a, m), And(b, m))
  {
  }

  lemma OrZero(x: bv32, y: bv32)
    ensures Or(x, y) == 0 <==> x == 0 && y == 0
  {
  }

  lemma OrMask(a: bv32, b: bv32, m: bv32)
    ensures Meets(Or(a, b), m) <==> Meets(a, m) || Meets(b, m)
  {
    hide And, Or;
    Distributes(a, b, m);
    OrZero(And(a, m), And(b, m));
  }

  lemma OrBit(a: bv32, b: bv32, n: nat)
    requires n < BITS
    ensures Bit(Or(a, b), n) <==> Bit(a, n) || Bit(b, n)
  {
    hide Pow, Meets, Or;
    OrMask(a, b, Pow(n));
  }

  lemma PowBit(n: nat, m: nat)
    requires n < BITS && m < BITS
    ensures Bit(Pow(n), m) <==> n == m
  {
  }

  // ------------------------------------------------------------------ the VLAN word

  /** pdesc_t: the untag and the member bit of a port, and whether it leads to the CPU. */
  datatype Desc = Desc(untag: bv32, member: bv32, cpu: bool)

  /** pdesc25[]. */
  const PDESC25: seq<Desc> :=
    [Desc(0x40, 0x1, false), Desc(0x80, 0x2, false), Desc(0x100, 0x4, false), Desc(0x200, 0x8, false),
     Desc(0x400, 0x10, false), Desc(0x800, 0x20, true)]

  /** pdesc97[]. */
  const PDESC97: seq<Desc> :=
    [Desc(0x200, 0x1, false), Desc(0x400, 0x2, false), Desc(0x800, 0x4, false), Desc(0x1000, 0x8, false),
     Desc(0x2000, 0x10, false), Desc(0x4000, 0x20, false), Desc(0x8000, 0x40, false), Desc(0x10000, 0x80, false),
     Desc(0x20000, 0x100, true)]

  /** A switch: the number of its ports, the last of which leads to the CPU, and how far the untag
      bits are above the member bits.  `aux` is the port that is moved to the last one, on boards
      that do so; `cpu` is a further port that is marked as leading to the CPU, if one is. */
  datatype Device = Device(ports: nat, shift: nat, aux: Option<int>, cpu: Option<nat>)

  predicate Known(dev: Device) {
    && ((dev.ports == 6 && dev.shift == 6 && dev.cpu.None?) || (dev.ports == 9 && dev.shift == 9))
    && (dev.cpu.Some? ==> dev.cpu.value < dev.ports)
  }

  function Table(dev: Device): (t: seq<Desc>)
    requires Known(dev)
    ensures |t| == dev.ports
  {
    if dev.ports == 6 then PDESC25
    else if dev.cpu.Some? then PDESC97[dev.cpu.value := PDESC97[dev.cpu.value].(cpu := true)]
    else PDESC97
  }

  lemma TableIs(dev: Device, pid: nat)
    requires Known(dev) && pid < dev.ports
    ensures Table(dev)[pid] == Desc(Pow(pid + dev.shift), Pow(pid), IsCpu(dev, pid))
  {
    if dev.ports == 6 {
      assert PDESC25[pid] == Desc(Pow(pid + 6), Pow(pid), pid == 5);
    } else {
      assert PDESC97[pid] == Desc(Pow(pid + 9), Pow(pid), pid == 8);
    }
  }

  predicate IsCpu(dev: Device, pid: nat) {
    pid + 1 == dev.ports || dev.cpu == Some(pid)
  }

  /** robo_fa_imp_port_upd: the auxiliary port stands for the last one. */
  function Moved(dev: Device, pid: int): int {
    if dev.aux == Some(pid) && pid != dev.ports - 1 then dev.ports - 1 else pid
  }

  /** A token is copied into a buffer for four characters. */
  function Cut(tok: string): (port: string)
    ensures port <= tok && |port| == if |tok| < 4 then |tok| else 4
  {
    if |tok| > 4 then tok[..4] else tok
  }

  /** Whether the port leaves this VLAN's frames untagged: the CPU port when it is flagged 'u', the
      others unless they are flagged 't'. */
  predicate Untagged(dev: Device, pid: nat, tok: string) {
    if IsCpu(dev, pid) then 'u' in Cut(tok) else 't' !in Cut(tok)
  }

  datatype Words = Words(untag: bv32, member: bv32)

  /** Where the loop gets to: the two words, or a number below the table, whose entry it reads. */
  datatype Outcome = Built(w: Words) | Outside(pid: int)

  /** What one token does.  `atoi` stands for bcm_atoi, and the only check is for the upper end of
      the table. */
  function Apply(dev: Device, atoi: string -> int, w: Words, tok: string): Outcome
    requires Known(dev)
  {
    if atoi(Cut(tok)) >= |Table(dev)| then Built(w)
    else
      var pid := Moved(dev, atoi(Cut(tok)));
      if pid < 0 then Outside(pid)
      else
        var d := Table(dev)[pid];
        var untagged := (!d.cpu && 't' !in Cut(tok)) || (d.cpu && 'u' in Cut(tok));
        Built(Words(if untagged then Or(w.untag, d.untag) else w.untag, Or(w.member, d.member)))
  }

  function Build(dev: Device, atoi: string -> int, w: Words, toks: seq<string>): Outcome
    requires Known(dev)
    decreases |toks|
  {
    if toks == [] then Built(w)
    else
      match Apply(dev, atoi, w, toks[0])
      case Outside(pid) => Outside(pid)
      case Built(w') => Build(dev, atoi, w', toks[1..])
  }

  /** A token with a negative number that is not the auxiliary port's. */
  predicate Negative(dev: Device, atoi: string -> int, tok: string) {
    atoi(Cut(tok)) < 0 && dev.aux != Some(atoi(Cut(tok)))
  }

  ghost predicate NoneNegative(dev: Device, atoi: string -> int, toks: seq<string>) {
    forall k :: 0 <= k < |toks| ==> !Negative(dev, atoi, toks[k])
  }

  /** Exactly when the loop stays inside the table: when no token is such a number. */
  lemma {:induction false} InsideIff(dev: Device, atoi: string -> int, w: Words, toks: seq<string>)
    requires Known(dev)
    ensures Build(dev, atoi, w, toks).Built? <==> NoneNegative(dev, atoi, toks)
    decreases |toks|
  {
    if toks != [] {
      ApplyInside(dev, atoi, w, toks[0]);
      hide Or, Cut, Known, Table, Apply, Negative;
      var r := Apply(dev, atoi, w, toks[0]);
      if r.Built? {
        InsideIff(dev, atoi, r.w, toks[1..]);
      }
      assert NoneNegative(dev, atoi, toks) <==> !Negative(dev, atoi, toks[0]) && NoneNegative(dev, atoi, toks[1..]) by {
        forall k | 0 <= k < |toks| ensures k == 0 || toks[k] == toks[1..][k - 1] {
        }
      }
    }
  }

  lemma ApplyInside(dev: Device, atoi: string -> int, w: Words, tok: string)
    requires Known(dev)
    ensures Apply(dev, atoi, w, tok).Built? <==> !Negative(dev, atoi, tok)
    ensures Apply(dev, atoi, w, tok).Outside? ==> Apply(dev, atoi, w, tok).pid == atoi(Cut(tok))
  {
    hide Or, Cut, Table;
  }

  /** The first negative number is what the table is indexed with. */
  lemma {:induction false} OutsideAt(dev: Device, atoi: string -> int, w: Words, toks: seq<string>, k: nat)
    requires Known(dev) && k < |toks| && Negative(dev, atoi, toks[k]) && NoneNegative(dev, atoi, toks[..k])
    ensures Build(dev, atoi, w, toks) == Outside(atoi(Cut(toks[k])))
    decreases k
  {
    ApplyInside(dev, atoi, w, toks[0]);
    hide Or, Cut, Known, Table, Apply, Negative;
    if k > 0 {
      assert toks[..k][0] == toks[0];
      var r := Apply(dev, atoi, w, toks[0]);
      assert toks[1..][..k - 1] == toks[..k][1..];
      OutsideAt(dev, atoi, r.w, toks[1..], k - 1);
    }
  }

  /** "0 -1 2" on either device, when "-1" is read as -1 and that is not the auxiliary port. */
  lemma MinusOne(dev: Device, atoi: string -> int)
    requires Known(dev) && atoi("-1") == -1 && atoi("0") == 0 && dev.aux != Some(-1)
    ensures Build(dev, atoi, Words(0, 0), Tokens("0 -1 2")) == Outside(-1)
  {
    hide Known, Table, Or;
    ThreeTokens();
    assert Cut("0") == "0" && Cut("-1") == "-1";
    OutsideAt(dev, atoi, Words(0, 0), ["0", "-1", "2"], 1);
  }

  lemma ThreeTokens()
    ensures Tokens("0 -1 2") == ["0", "-1", "2"]
  {
    hide Tokens;
    OneToken("0", "-1 2");
    assert "0 -1 2" == "0" + " " + "-1 2";
    TwoTokens();
  }

  lemma TwoTokens()
    ensures Tokens("-1 2") == ["-1", "2"]
  {
    hide Tokens;
    OneToken("-1", "2");
    OneToken("2", "");
    assert "-1 2" == "-1" + " " + "2";
  }

  lemma OneToken(tok: string, rest: string)
    requires tok != [] && ' ' !in tok
    ensures Tokens(tok + " " + rest) == [tok] + Tokens(rest) && Tokens(tok) == [tok]
  {
    TokenIs(tok, " " + rest);
    TokenIs(tok, "");
    assert tok + " " + rest == tok + (" " + rest) && tok + "" == tok;
    assert (" " + rest)[1..] == rest;
  }

  lemma TokenIs(tok: string, rest: string)
    requires tok != [] && ' ' !in tok && (rest == [] || rest[0] == ' ')
    ensures Tokens(tok + rest) == [tok] + Tokens(rest)
  {
    var s := tok + rest;
    var n := TokenLen(s);
    assert n == |tok| by {
      assert forall j :: 0 <= j < |tok| ==> s[j] == tok[j];
      assert rest != [] ==> s[|tok|] == ' ';
    }
    assert s[..n] == tok && s[n..] == rest;
  }

  /** The token leads to this port: it has its number, or it has the number of the auxiliary port and
      this is the last one. */
  predicate Names(dev: Device, atoi: string -> int, tok: string, pid: nat) {
    var n := atoi(Cut(tok));
    n < dev.ports && pid == if dev.aux == Some(n) then dev.ports - 1 else n
  }

  ghost predicate Named(dev: Device, atoi: string -> int, toks: seq<string>, pid: nat) {
    exists tok :: tok in toks && Names(dev, atoi, tok, pid)
  }

  ghost predicate NamedUntagged(dev: Device, atoi: string -> int, toks: seq<string>, pid: nat) {
    exists tok :: tok in toks && Names(dev, atoi, tok, pid) && Untagged(dev, pid, tok)
  }

  lemma ApplyBits(dev: Device, atoi: string -> int, w: Words, tok: string, n: nat)
    requires Known(dev) && n < BITS && !Negative(dev, atoi, tok)
    ensures Apply(dev, atoi, w, tok).Built?
    ensures var r := Apply(dev, atoi, w, tok).w;
            && (Bit(r.member, n) <==> Bit(w.member, n) || Names(dev, atoi, tok, n))
            && (Bit(r.untag, n) <==>
                Bit(w.untag, n)
                || (n >= dev.shift && Names(dev, atoi, tok, n - dev.shift) && Untagged(dev, n - dev.shift, tok)))
  {
    hide Bit, Or, Pow, Cut, Table;
    if atoi(Cut(tok)) < dev.ports {
      var pid := Moved(dev, atoi(Cut(tok)));
      TableIs(dev, pid);
      OrBit(w.member, Pow(pid), n);
      PowBit(pid, n);
      OrBit(w.untag, Pow(pid + dev.shift), n);
      PowBit(pid + dev.shift, n);
    }
  }

  lemma {:induction false} BuildBits(dev: Device, atoi: string -> int, w: Words, toks: seq<string>, n: nat)
    requires Known(dev) && n < BITS && NoneNegative(dev, atoi, toks)
    ensures Build(dev, atoi, w, toks).Built?
    ensures var r := Build(dev, atoi, w, toks).w;
            && (Bit(r.member, n) <==> Bit(w.member, n) || Named(dev, atoi, toks, n))
            && (Bit(r.untag, n) <==>
                Bit(w.untag, n)
                || (n >= dev.shift && NamedUntagged(dev, atoi, toks, n - dev.shift)))
    decreases |toks|
  {
    if toks != [] {
      assert !Negative(dev, atoi, toks[0]);
      assert NoneNegative(dev, atoi, toks[1..]);
      ApplyBits(dev, atoi, w, toks[0], n);
      BuildBits(dev, atoi, Apply(dev, atoi, w, toks[0]).w, toks[1..], n);
      hide Bit, Apply, Names, Untagged, Known, Cut, NoneNegative, Negative;
      assert forall tok :: tok in toks <==> tok == toks[0] || tok in toks[1..];
    }
  }

  // ------------------------------------------------------------------ reading the word back

  /** The member field of the table dump. */
  function DumpMember(dev: Device, word: bv32): bv32 {
    if dev.ports == 6 then word & 0x3f else word & 0x1ff
  }

  /** The untag field of the table dump. */
  function DumpUntag(dev: Device, word: bv32): bv32 {
    if dev.ports == 6 then (word & 0xfc0) >> 6 else (word & 0x3fe00) >> 9
  }

  /** The bits of a word that lie above both fields: the valid bit and the VLAN number. */
  predicate AboveFields(dev: Device, high: bv32) {
    high & (if dev.ports == 6 then 0xfff else 0x3ffff) == 0
  }

  lemma MemberMask(w: bv32, m: bv32)
    ensures m & 0x3f == m ==> Meets(w & 0x3f, m) == Meets(w, m)
    ensures m & 0x1ff == m ==> Meets(w & 0x1ff, m) == Meets(w, m)
  {
  }

  lemma UntagMask25(w: bv32, m: bv32)
    requires m & 0x3f == m
    ensures Meets((w & 0xfc0) >> 6, m) == Meets(w, m << 6)
  {
  }

  lemma UntagMask97(w: bv32, m: bv32)
    requires m & 0x1ff == m
    ensures Meets((w & 0x3fe00) >> 9, m) == Meets(w, m << 9)
  {
  }

  lemma PowShift(p: nat)
    ensures p < 6 ==> Pow(p) & 0x3f == Pow(p) && Pow(p) << 6 == Pow(p + 6)
    ensures p < 9 ==> Pow(p) & 0x1ff == Pow(p) && Pow(p) << 9 == Pow(p + 9)
  {
  }

  lemma DumpBits(dev: Device, word: bv32, p: nat)
    requires Known(dev) && p < dev.ports
    ensures Bit(DumpMember(dev, word), p) <==> Bit(word, p)
    ensures Bit(DumpUntag(dev, word), p) <==> Bit(word, p + dev.shift)
  {
    hide Meets, Pow;
    PowShift(p);
    MemberMask(word, Pow(p));
    if dev.ports == 6 {
      UntagMask25(word, Pow(p));
    } else {
      UntagMask97(word, Pow(p));
    }
  }

  lemma HighMask12(high: bv32, m: bv32)
    requires high & 0xfff == 0 && m & 0xfff == m
    ensures !Meets(high, m)
  {
    assert high & m == high & (m & 0xfff) == (high & 0xfff) & m;
  }

  lemma HighMask18(high: bv32, m: bv32)
    requires high & 0x3ffff == 0 && m & 0x3ffff == m
    ensures !Meets(high, m)
  {
    assert high & m == high & (m & 0x3ffff) == (high & 0x3ffff) & m;
  }

  lemma PowLow(n: nat)
    ensures n < 12 ==> Pow(n) & 0xfff == Pow(n)
    ensures n < 18 ==> Pow(n) & 0x3ffff == Pow(n)
  {
  }

  lemma HighBits(dev: Device, high: bv32, n: nat)
    requires Known(dev) && AboveFields(dev, high) && n < dev.ports + dev.shift
    ensures !Bit(high, n)
  {
    PowLow(n);
    hide Meets, Pow;
    if dev.ports == 6 {
      HighMask12(high, Pow(n));
    } else {
      HighMask18(high, Pow(n));
    }
  }

  /** The value the loop's two words are written with; `high` are the bits above them. */
  function WordOf(w: Words, high: bv32): bv32 {
    Or(Or(w.untag, w.member), high)
  }

  /** Whatever the port list: the word is built if and only if no token is a negative number, and
      then decodes to exactly the ports it names, and to the untagged ones among them. */
  lemma WordDecodes(dev: Device, atoi: string -> int, toks: seq<string>, high: bv32)
    requires Known(dev) && AboveFields(dev, high)
    ensures var r := Build(dev, atoi, Words(0, 0), toks);
            && (r.Built? <==> NoneNegative(dev, atoi, toks))
            && (r.Built? ==>
                  forall p: nat :: p < dev.ports ==>
                    && (Bit(DumpMember(dev, WordOf(r.w, high)), p) <==> Named(dev, atoi, toks, p))
                    && (Bit(DumpUntag(dev, WordOf(r.w, high)), p) <==> NamedUntagged(dev, atoi, toks, p)))
  {
    hide Bit, WordOf, DumpMember, DumpUntag, AboveFields, Build, NamedUntagged, Named, NoneNegative;
    InsideIff(dev, atoi, Words(0, 0), toks);
    var r := Build(dev, atoi, Words(0, 0), toks);
    if r.Built? {
      forall p: nat | p < dev.ports
        ensures Bit(DumpMember(dev, WordOf(r.w, high)), p) <==> Named(dev, atoi, toks, p)
        ensures Bit(DumpUntag(dev, WordOf(r.w, high)), p) <==> NamedUntagged(dev, atoi, toks, p)
      {
        DumpBits(dev, WordOf(r.w, high), p);
        WordBit(dev, r.w, high, p);
        WordBit(dev, r.w, high, p + dev.shift);
        UntagHigh(dev, atoi, toks, p);
      }
    }
  }

  lemma WordBit(dev: Device, w: Words, high: bv32, n: nat)
    requires Known(dev) && AboveFields(dev, high) && n < dev.ports + dev.shift
    ensures Bit(WordOf(w, high), n) <==> Bit(w.untag, n) || Bit(w.member, n)
  {
    hide Bit, Or;
    HighBits(dev, high, n);
    OrBit(Or(w.untag, w.member), high, n);
    OrBit(w.untag, w.member, n);
  }

  /** The two fields do not run into each other. */
  lemma UntagHigh(dev: Device, atoi: string -> int, toks: seq<string>, p: nat)
    requires Known(dev) && p < dev.ports && NoneNegative(dev, atoi, toks)
    ensures Build(dev, atoi, Words(0, 0), toks).Built?
    ensures var w := Build(dev, atoi, Words(0, 0), toks).w;
            && !Bit(w.untag, p) && !Bit(w.member, p + dev.shift)
            && (Bit(w.member, p) <==> Named(dev, atoi, toks, p))
            && (Bit(w.untag, p + dev.shift) <==> NamedUntagged(dev, atoi, toks, p))
  {
    hide Bit, Build, NamedUntagged, NoneNegative;
    NoBits(p);
    NoBits(p + dev.shift);
    BuildBits(dev, atoi, Words(0, 0), toks, p);
    BuildBits(dev, atoi, Words(0, 0), toks, p + dev.shift);
  }

  lemma NoBits(n: nat)
    requires n < BITS
    ensures !Bit(0, n)
  {
    hide Pow;
  }

  /** Untagged ports are members. */
  lemma UntaggedAreMembers(dev: Device, atoi: string -> int, toks: seq<string>, high: bv32, p: nat)
    requires Known(dev) && AboveFields(dev, high) && p < dev.ports
    ensures var r := Build(dev, atoi, Words(0, 0), toks);
            r.Built? && Bit(DumpUntag(dev, WordOf(r.w, high)), p) ==> Bit(DumpMember(dev, WordOf(r.w, high)), p)
  {
    WordDecodes(dev, atoi, toks, high);
    hide Bit, WordOf, DumpMember, DumpUntag, AboveFields, Build, Untagged, Names;
  }

  // ------------------------------------------------------------------ the loop

  /** bcmstrstr(cur, " "): the next space, or the length of the string. */
  method NextSpace(s: string, cur: nat) returns (next: nat)
    requires cur <= |s|
    ensures next == cur + TokenLen(s[cur..])
  {
    next := cur;
    while next < |s| && s[next] != ' '
      invariant cur <= next <= |s|
      invariant cur + TokenLen(s[cur..]) == next + TokenLen(s[next..])
    {
      assert s[next..][1..] == s[next + 1..];
      next := next + 1;
    }
  }

  /** `while (*cur == ' ') cur ++`. */
  method SkipSpaces(s: string, cur0: nat) returns (cur: nat)
    requires cur0 <= |s|
    ensures cur0 <= cur <= |s| && Tokens(s[cur..]) == Tokens(s[cur0..]) && (cur < |s| ==> s[cur] != ' ')
  {
    cur := cur0;
    while cur < |s| && s[cur] == ' '
      invariant cur0 <= cur <= |s| && Tokens(s[cur..]) == Tokens(s[cur0..])
    {
      assert s[cur..][1..] == s[cur + 1..];
      cur := cur + 1;
    }
  }

  /** The loop over one VLAN's port list. */
  method BuildWords(dev: Device, atoi: string -> int, ports: string) returns (r: Outcome)
    requires Known(dev)
    ensures r == Build(dev, atoi, Words(0, 0), Tokens(ports))
  {
    r := Built(Words(0, 0));
    var cur, more := 0, true;
    assert ports[0..] == ports;
    while more
      invariant cur <= |ports| && (more ==> r.Built?)
      invariant Build(dev, atoi, Words(0, 0), Tokens(ports))
             == if more then Build(dev, atoi, r.w, Tokens(ports[cur..])) else r
      decreases more, |ports| - cur
    {
      hide Apply, Known, Cut, Untagged;
      cur := SkipSpaces(ports, cur);
      var next := NextSpace(ports, cur);
      if next == cur {
        break;
      }
      TokenAt(ports, cur, next);
      r := ApplyToken(dev, atoi, r.w, ports[cur..next]);
      if r.Outside? || next == |ports| {
        more := false;
      } else {
        cur := next;
      }
    }
  }

  lemma TokenAt(s: string, cur: nat, next: nat)
    requires cur < next <= |s| && next == cur + TokenLen(s[cur..]) && s[cur] != ' '
    ensures Tokens(s[cur..]) == [s[cur..next]] + Tokens(s[next..])
    ensures Tokens(s[|s|..]) == []
  {
    assert s[cur..][..next - cur] == s[cur..next] && s[cur..][next - cur..] == s[next..];
  }

  /** robo_fa_imp_port_upd. */
  method ImpPortUpd(dev: Device, pid: int) returns (newpid: int)
    ensures newpid == Moved(dev, pid)
  {
    newpid := pid;
    if dev.aux.Some? && pid == dev.aux.value {
      if pid != dev.ports - 1 {
        newpid := dev.ports - 1;
      }
    }
  }

  method ApplyToken(dev: Device, atoi: string -> int, w0: Words, tok: string) returns (r: Outcome)
    requires Known(dev)
    ensures r == Apply(dev, atoi, w0, tok)
  {
    var w := w0;
    var len := if |tok| > 4 then 4 else |tok|;
    var port := tok[..len];
    assert port == Cut(tok);
    var pid := atoi(port);
    if pid >= |Table(dev)| {
      return Built(w);
    }
    pid := ImpPortUpd(dev, pid);
    if pid < 0 {
      return Outside(pid);
    }
    var d := Table(dev)[pid];
    if (!d.cpu && 't' !in port) || (d.cpu && 'u' in port) {
      w := w.(untag := Or(w.untag, d.untag));
    }
    w := w.(member := Or(w.member, d.member));
    return Built(w);
  }
}
