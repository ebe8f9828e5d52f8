/** Prefix lengths and netmasks (prefix notation: section 3.1 of RFC 4632): bits2netmask of
    scripts/pifconfig and the bit count of tests/parse_ifconfig.py. */
module Prefixes {
  import opened Wrappers
  import opened Numerals
  import opened Scanner
  import opened Words

  // ---------------------------------------------------------------- bits of natural numbers

  /** 1 << n */
  function Pow2(n: nat): (p: nat)
    ensures p >= 1
  {
    if n == 0 then 1 else 2 * Pow2(n - 1)
  }

  /** n >> b */
  function Shift(n: nat, b: nat): nat {
    if b == 0 then n else Shift(n / 2, b - 1)
  }

  predicate Bit(n: nat, k: nat) { Shift(n, k) % 2 == 1 }

  /** The number of rounds in which the counting loop adds one. */
  function Ones(n: nat): nat {
    if n == 0 then 0 else n % 2 + Ones(n / 2)
  }

  lemma {:induction false} ShiftOnce(n: nat, b: nat)
    ensures Shift(n, b + 1) == Shift(n, b) / 2
  {
    if b > 0 { ShiftOnce(n / 2, b - 1); }
  }

  lemma {:induction false} ShiftsOut(n: nat, w: nat)
    requires n < Pow2(w)
    ensures Shift(n, w) == 0
  {
    if w > 0 { ShiftsOut(n / 2, w - 1); }
  }

  // --------------------------------------------------------------------- the mask of a prefix

  lemma {:induction false} ShiftPow2(w: nat, b: nat)
    ensures Shift(Pow2(w), b) == if b <= w then Pow2(w - b) else 0
  {
    if b > 0 {
      if w > 0 { ShiftPow2(w - 1, b - 1); } else { ShiftZero(b - 1); }
    }
  }

  lemma {:induction false} ShiftZero(b: nat)
    ensures Shift(0, b) == 0
  {
    if b > 0 { ShiftZero(b - 1); }
  }

  /** (1 << w) - (1 << w >> b) */
  function Mask(w: nat, b: nat): (m: nat)
    ensures b <= w ==> m == Pow2(w) - Pow2(w - b)
    ensures b > w ==> m == Pow2(w)
  {
    ShiftPow2(w, b);
    PowersGrow(if b <= w then w - b else 0, w);
    Pow2(w) - Shift(Pow2(w), b)
  }

  lemma {:induction false} PowersGrow(a: nat, b: nat)
    requires a <= b
    ensures Pow2(a) <= Pow2(b)
  {
    if a < b { PowersGrow(a, b - 1); }
  }

  lemma MaskStep(w: nat, b: nat)
    requires b <= w && w > 0
    ensures Mask(w, b) / 2 == Mask(w - 1, if b < w then b else b - 1)
    ensures Mask(w, b) % 2 == if b < w then 0 else 1
  {
    hide Mask;
  }

  lemma BitStep(n: nat, k: nat)
    ensures Bit(n, 0) <==> n % 2 == 1
    ensures k > 0 ==> (Bit(n, k) <==> Bit(n / 2, k - 1))
  {
  }

  /** The mask of prefix length b has exactly its b leading bits set. */
  lemma {:induction false} MaskBits(w: nat, b: nat, k: nat)
    requires b <= w
    ensures Mask(w, b) < Pow2(w)
    ensures Bit(Mask(w, b), k) <==> w - b <= k < w
  {
    hide Mask, Bit, Shift;
    if w == 0 {
      ZeroBits(k);
    } else {
      hide Pow2;
      MaskStep(w, b);
      BitStep(Mask(w, b), k);
      if k > 0 { MaskBits(w - 1, if b < w then b else b - 1, k - 1); }
    }
  }

  lemma ZeroBits(k: nat)
    ensures !Bit(0, k)
  {
    ShiftZero(k);
  }

  lemma {:induction false} MaskOnes(w: nat, b: nat)
    requires b <= w
    ensures Ones(Mask(w, b)) == b
  {
    if w > 0 {
      MaskStep(w, b);
      MaskOnes(w - 1, if b < w then b else b - 1);
    }
  }

  /** Above a one bit there are only one bits. */
  ghost predicate Contiguous(n: nat, w: nat) {
    forall j: nat, k: nat | j < k < w :: Bit(n, j) ==> Bit(n, k)
  }

  lemma HalfContiguous(n: nat, w: nat)
    requires w > 0 && Contiguous(n, w)
    ensures Contiguous(n / 2, w - 1)
    ensures Bit(n, 0) && w > 1 ==> Bit(n / 2, 0)
  {
    forall j: nat, k: nat | j < k < w - 1 && Bit(n / 2, j) ensures Bit(n / 2, k) {
      assert Bit(n, j + 1) && Bit(n, k + 1);
    }
    if Bit(n, 0) && w > 1 { assert Bit(n, 1); }
  }

  /** The contiguous words are exactly the masks. */
  lemma {:induction false} ContiguousIsMask(n: nat, w: nat)
    requires n < Pow2(w) && Contiguous(n, w)
    ensures Ones(n) <= w && n == Mask(w, Ones(n))
    ensures w > 0 && Bit(n, 0) ==> Ones(n) == w
  {
    hide Mask, Shift, Bit, Contiguous;
    if w > 0 {
      HalfContiguous(n, w);
      ContiguousIsMask(n / 2, w - 1);
      BitStep(n, 0);
      MaskStep(w, Ones(n));
      hide Pow2;
    }
  }

  // ------------------------------------------------------------- four bytes, big-endian

  /** struct.pack(">L", n) */
  function Pack(n: nat): (bytes: seq<byte>)
    requires n < 0x1_0000_0000
    ensures |bytes| == 4 && Word(bytes) == n
  {
    var q1 := n / 0x100;
    var q2 := q1 / 0x100;
    [q2 / 0x100, q2 % 0x100, q1 % 0x100, n % 0x100]
  }

  function Word(bytes: seq<byte>): (n: nat)
    requires |bytes| == 4
    ensures n < 0x1_0000_0000
  {
    0x100_0000 * (bytes[0] as int) + 0x1_0000 * (bytes[1] as int)
    + 0x100 * (bytes[2] as int) + bytes[3]
  }

  lemma PackWord(bytes: seq<byte>)
    requires |bytes| == 4
    ensures Pack(Word(bytes)) == bytes
  {
    var n := Word(bytes);
    var q1, q2 := n / 0x100, n / 0x100 / 0x100;
    assert q1 == 0x1_0000 * (bytes[0] as int) + 0x100 * (bytes[1] as int) + bytes[2];
    assert q2 == 0x100 * (bytes[0] as int) + bytes[1];
  }

  lemma OnesStep(n: nat)
    ensures Ones(n) == n % 2 + Ones(n / 2)
  {
  }

  /** Halving a number whose low part is `low` halves the two parts. */
  lemma HalfOfParts(high: nat, p: nat, low: nat)
    ensures high * (2 * p) == 2 * (high * p)
    ensures (2 * (high * p) + low) / 2 == high * p + low / 2
    ensures (2 * (high * p) + low) % 2 == low % 2
  {
  }

  lemma {:induction false} OnesSplit(high: nat, low: nat, k: nat)
    requires low < Pow2(k)
    ensures Ones(high * Pow2(k) + low) == Ones(high) + Ones(low)
  {
    hide Ones;
    if k == 0 {
      assert low == 0 && Ones(0) == 0 by { OnesZero(); }
    } else {
      HalfOfParts(high, Pow2(k - 1), low);
      OnesStep(high * Pow2(k) + low);
      OnesStep(low);
      OnesSplit(high, low / 2, k - 1);
    }
  }

  lemma OnesZero()
    ensures Ones(0) == 0
  {
  }

  lemma OnesSplit8(high: nat, low: byte)
    ensures Ones(0x100 * high + low) == Ones(high) + Ones(low)
  {
    assert Pow2(8) == 0x100;
    OnesSplit(high, low, 8);
  }

  function OnesOf(bytes: seq<byte>): nat {
    if bytes == [] then 0 else OnesOf(bytes[..|bytes| - 1]) + Ones(bytes[|bytes| - 1])
  }

  lemma OnesOfWord(bytes: seq<byte>)
    requires |bytes| == 4
    ensures OnesOf(bytes) == Ones(Word(bytes))
  {
    hide Ones;
    var w2: nat := 0x100 * (bytes[0] as int) + bytes[1];
    var w3: nat := 0x100 * w2 + bytes[2];
    OnesSplit8(bytes[0], bytes[1]);
    OnesSplit8(w2, bytes[2]);
    OnesSplit8(w3, bytes[3]);
    var x, y := bytes[..3], bytes[..2];
    assert x[..2] == y && y[..1] == [bytes[0]];
    assert OnesOf([bytes[0]]) == Ones(bytes[0]) by { assert [bytes[0]][..0] == []; }
    assert OnesOf(y) == Ones(bytes[0]) + Ones(bytes[1]);
    assert OnesOf(x) == OnesOf(y) + Ones(bytes[2]);
    assert Word(bytes) == 0x100 * w3 + bytes[3];
  }

  /** Whether the bit at the position, eight to a byte, is one. */
  predicate BitAt(bytes: seq<byte>, p: nat)
    requires p < 8 * |bytes|
  {
    Bit(bytes[p / 8], p % 8)
  }

  function BitsBefore(bytes: seq<byte>, end: nat): set<nat>
    requires end <= 8 * |bytes|
  {
    set p: nat | p < end && BitAt(bytes, p)
  }

  /** The positions of the one bits of a byte string. */
  function OneBits(bytes: seq<byte>): set<nat> { BitsBefore(bytes, 8 * |bytes|) }

  lemma OneMoreBit(bytes: seq<byte>, end: nat)
    requires end < 8 * |bytes|
    ensures |BitsBefore(bytes, end + 1)| == |BitsBefore(bytes, end)| + if BitAt(bytes, end) then 1 else 0
  {
    hide BitAt;
    assert BitsBefore(bytes, end + 1)
        == BitsBefore(bytes, end) + if BitAt(bytes, end) then {end} else {};
  }

  /** After `k` halvings of byte `i` the ones met and the ones left make up the byte. */
  lemma {:induction false} Halvings(bytes: seq<byte>, i: nat, k: nat)
    requires i < |bytes| && k <= 8
    ensures |BitsBefore(bytes, 8 * i + k)| + Ones(Shift(bytes[i], k))
         == |BitsBefore(bytes, 8 * i)| + Ones(bytes[i])
  {
    hide BitsBefore, Ones, Shift;
    if k == 0 {
      NoShift(bytes[i]);
    } else {
      Halvings(bytes, i, k - 1);
      ShiftOnce(bytes[i], k - 1);
      OnesStep(Shift(bytes[i], k - 1));
      OneMoreBit(bytes, 8 * i + k - 1);
      BitOfByte(bytes, i, k - 1);
    }
  }

  lemma NoShift(n: nat)
    ensures Shift(n, 0) == n
  {
  }

  lemma BitOfByte(bytes: seq<byte>, i: nat, k: nat)
    requires i < |bytes| && k < 8
    ensures BitAt(bytes, 8 * i + k) <==> Shift(bytes[i], k) % 2 == 1
  {
    hide Shift;
    assert (8 * i + k) / 8 == i && (8 * i + k) % 8 == k;
  }

  lemma WholeByte(bytes: seq<byte>, i: nat)
    requires i < |bytes|
    ensures |BitsBefore(bytes, 8 * i + 8)| == |BitsBefore(bytes, 8 * i)| + Ones(bytes[i])
  {
    Halvings(bytes, i, 8);
    assert Pow2(8) == 0x100;
    ShiftsOut(bytes[i], 8);
    hide Shift, Pow2, BitsBefore;
  }

  lemma {:induction false} OnesOfCounts(bytes: seq<byte>, n: nat)
    requires n <= |bytes|
    ensures OnesOf(bytes[..n]) == |BitsBefore(bytes, 8 * n)|
  {
    hide BitsBefore, Ones;
    if n == 0 {
      NoBits(bytes);
    } else {
      OnesOfCounts(bytes, n - 1);
      WholeByte(bytes, n - 1);
      assert bytes[..n][..n - 1] == bytes[..n - 1];
    }
  }

  lemma NoBits(bytes: seq<byte>)
    ensures BitsBefore(bytes, 0) == {}
  {
  }

  /** The sum over the bytes counts every one bit exactly once. */
  lemma OnesOfIsCount(bytes: seq<byte>)
    ensures OnesOf(bytes) == |OneBits(bytes)|
  {
    OnesOfCounts(bytes, |bytes|);
    assert bytes[..|bytes|] == bytes;
  }

  /** The counting loop of get_netmask_bits. */
  method CountBits(packed: seq<byte>) returns (result: nat)
    ensures result == |OneBits(packed)|
  {
    result := 0;
    for i := 0 to |packed|
      invariant result == OnesOf(packed[..i])
    {
      var ch: nat := packed[i];
      while ch != 0
        invariant result + Ones(ch) == OnesOf(packed[..i]) + Ones(packed[i])
      {
        if ch % 2 == 1 {
          result := result + 1;
        }
        ch := ch / 2;
      }
      assert packed[..i + 1][..i] == packed[..i];
    }
    assert packed[..|packed|] == packed;
    OnesOfIsCount(packed);
  }

  // -------------------------------------------------------------------------- dotted quads

  /** socket.inet_ntoa */
  function Ntoa(bytes: seq<byte>): string
    requires |bytes| == 4
  {
    Dotted(N(bytes[0]), N(bytes[1]), N(bytes[2]), N(bytes[3]))
  }

  function Octal(digits: string): Option<nat>
    requires All(Digit, digits)
  {
    if digits == "" then Some(0)
    else
      var n := |digits| - 1;
      var high :- Octal(digits[..n]);
      if DigitValue(digits[n]) < 8 then Some(8 * high + DigitValue(digits[n])) else None
  }

  /** One part of an address for inet_aton: a leading zero makes it octal. */
  function Part(digits: string): Option<byte>
    requires digits != "" && All(Digit, digits)
  {
    var value := if |digits| > 1 && digits[0] == '0' then Octal(digits) else Some(Value(10, digits));
    if value.Some? && value.value < 256 then Some(value.value) else None
  }

  /** socket.inet_aton on four runs of digits with dots between them, the only texts the
      ifconfig patterns capture; None is its OSError. */
  function Aton(text: string): Option<seq<byte>> {
    var (a, s1) :- Run(Digit, text);
    var s2 :- Lit(".", s1);
    var (b, s3) :- Run(Digit, s2);
    var s4 :- Lit(".", s3);
    var (c, s5) :- Run(Digit, s4);
    var s6 :- Lit(".", s5);
    var (d, s7) :- Run(Digit, s6);
    if s7 != "" then None
    else
      var p0 :- Part(a);
      var p1 :- Part(b);
      var p2 :- Part(c);
      var p3 :- Part(d);
      Some([p0, p1, p2, p3])
  }

  lemma {:induction false} NoLeadingZero(n: nat)
    ensures n > 0 ==> N(n)[0] != '0'
    ensures n < 10 ==> |N(n)| == 1
  {
    if n >= 10 { NoLeadingZero(n / 10); }
  }

  lemma PartOfNumeral(b: byte)
    ensures Part(N(b)) == Some(b)
  {
    NoLeadingZero(b);
    ValueOfNumeral(10, b);
  }

  lemma AtonNtoa(bytes: seq<byte>)
    requires |bytes| == 4
    ensures Aton(Ntoa(bytes)) == Some(bytes)
  {
    hide N, Part, In, Run, Lit;
    var a, b, c, d := N(bytes[0]), N(bytes[1]), N(bytes[2]), N(bytes[3]);
    NumberStep(bytes[0], b + ("." + (c + ("." + d))));
    NumberStep(bytes[1], c + ("." + d));
    NumberStep(bytes[2], d);
    LastNumber(bytes[3]);
    PartOfNumeral(bytes[0]);
    PartOfNumeral(bytes[1]);
    PartOfNumeral(bytes[2]);
    PartOfNumeral(bytes[3]);
    assert bytes == [bytes[0], bytes[1], bytes[2], bytes[3]];
  }

  lemma NumberStep(n: nat, rest: string)
    ensures Run(Digit, N(n) + ("." + rest)) == Some((N(n), "." + rest))
    ensures Lit(".", "." + rest) == Some(rest)
  {
    RunStep(Digit, N(n), "." + rest);
  }

  lemma LastNumber(n: nat)
    ensures Run(Digit, N(n)) == Some((N(n), ""))
  {
    RunStep(Digit, N(n), "");
    assert N(n) + "" == N(n);
  }

  // --------------------------------------------------------------------- the two together

  datatype MaskError = NegativeShift | OutOfRange

  /** bits2netmask: `>>` refuses a negative count, struct.pack a mask of 33 bits. */
  function Bits2Netmask(bits: int): Result<string, MaskError> {
    if bits < 0 then Err(NegativeShift)
    else
      var mask := Mask(32, bits);
      if mask >= 0x1_0000_0000 then Err(OutOfRange) else Ok(Ntoa(Pack(mask)))
  }

  lemma Pow32()
    ensures Pow2(32) == 0x1_0000_0000
  {
    assert Pow2(8) == 0x100;
    assert Pow2(16) == 0x1_0000;
    assert Pow2(24) == 0x100_0000;
  }

  /** get_netmask_bits, given the attribute; None is an OSError from inet_aton. */
  function NetmaskBits(netmask: Option<string>): Option<nat> {
    if netmask.None? || netmask.value == "" then Some(0)
    else
      var packed :- Aton(netmask.value);
      Some(|OneBits(packed)|)
  }

  /** Counting undoes bits2netmask on every prefix length, and only those have a netmask. */
  lemma CountUndoesNetmask(bits: int)
    ensures Bits2Netmask(bits).Ok? <==> 0 <= bits <= 32
    ensures 0 <= bits <= 32 ==> NetmaskBits(Some(Bits2Netmask(bits).value)) == Some(bits)
  {
    Pow32();
    hide Pow2, Aton;
    if 0 <= bits <= 32 {
      MaskBits(32, bits, 0);
      MaskOnes(32, bits);
      var packed := Pack(Mask(32, bits));
      AtonNtoa(packed);
      OnesOfWord(packed);
      OnesOfIsCount(packed);
    }
  }

  /** A dotted quad comes back from its bit count exactly if its one bits are contiguous. */
  lemma NetmaskUndoesCountIff(packed: seq<byte>)
    requires |packed| == 4
    ensures Bits2Netmask(|OneBits(packed)|) == Ok(Ntoa(packed))
       <==> Contiguous(Word(packed), 32)
  {
    Pow32();
    hide Pow2, Aton, Ntoa, Bit;
    OnesOfIsCount(packed);
    OnesOfWord(packed);
    var n := Ones(Word(packed));
    CountUndoesNetmask(n);
    if Contiguous(Word(packed), 32) {
      ContiguousIsMask(Word(packed), 32);
      PackWord(packed);
    } else if n <= 32 {
      MaskContiguous(n);
      AtonNtoa(Pack(Mask(32, n)));
      AtonNtoa(packed);
    }
  }

  lemma MaskContiguous(b: nat)
    requires b <= 32
    ensures Mask(32, b) < Pow2(32) && Contiguous(Mask(32, b), 32)
  {
    MaskBits(32, b, 0);
    forall k: nat ensures Bit(Mask(32, b), k) <==> 32 - b <= k < 32 { MaskBits(32, b, k); }
  }

  // ------------------------------------------------------------------- the quad, in numbers

  /** What a byte is that starts with `r` one bits. */
  const LEADING: seq<byte> := [0, 128, 192, 224, 240, 248, 252, 254, 255]

  /** Byte `i` of the netmask of prefix length `b`. */
  function Octet(b: nat, i: nat): byte {
    if b <= 8 * i then 0 else if b >= 8 * i + 8 then 255 else LEADING[b - 8 * i]
  }

  lemma LeadingIs(r: nat)
    requires r <= 8
    ensures LEADING[r] == 0x100 - Pow2(8 - r)
  {
  }

  lemma ByteHigher(k: nat)
    ensures Pow2(k + 8) == 0x100 * Pow2(k)
  {
    assert Pow2(k + 2) == 4 * Pow2(k);
    assert Pow2(k + 4) == 4 * Pow2(k + 2);
    assert Pow2(k + 6) == 4 * Pow2(k + 4);
  }

  lemma MaskParts(b: nat)
    requires b <= 32
    ensures var q, p := (if b == 32 then 3 else b / 8), Pow2(8 - (b - 8 * if b == 32 then 3 else b / 8));
            && p <= 0x100
            && Mask(32, b) == 0x1_0000_0000 - p * [0x100_0000, 0x1_0000, 0x100, 1][q]
  {
    hide Pow2;
    Pow32();
    var q := if b == 32 then 3 else b / 8;
    var k := 8 - (b - 8 * q);
    PowersGrow(k, 8);
    ByteHigher(0);
    ByteHigher(k);
    ByteHigher(k + 8);
    ByteHigher(k + 16);
    PowOne();
  }

  lemma PowOne()
    ensures Pow2(0) == 1
  {
  }

  lemma PackedMask(b: nat, q: nat, p: nat)
    requires b <= 32 && q == (if b == 32 then 3 else b / 8) && 1 <= p <= 0x100
    requires LEADING[b - 8 * q] == 0x100 - p
    ensures var n := 0x1_0000_0000 - p * [0x100_0000, 0x1_0000, 0x100, 1][q];
            && 0 <= n < 0x1_0000_0000
            && Pack(n) == [Octet(b, 0), Octet(b, 1), Octet(b, 2), Octet(b, 3)]
  {
    PackWord([Octet(b, 0), Octet(b, 1), Octet(b, 2), Octet(b, 3)]);
  }

  /** bits2netmask, in numbers: the four parts in order, the leading one first. */
  lemma NetmaskOctets(bits: int)
    ensures Bits2Netmask(bits)
         == if bits < 0 then Err(NegativeShift)
            else if bits > 32 then Err(OutOfRange)
            else Ok(N(Octet(bits, 0)) + ("." + (N(Octet(bits, 1)) + ("." + (N(Octet(bits, 2)) + ("."
                    + N(Octet(bits, 3))))))))
  {
    hide Pow2, Octet, Pack;
    Pow32();
    if 0 <= bits <= 32 {
      var q := if bits == 32 then 3 else bits / 8;
      MaskParts(bits);
      LeadingIs(bits - 8 * q);
      PackedMask(bits, q, Pow2(8 - (bits - 8 * q)));
      hide Mask;
    }
  }

  /** inet_aton takes a leading zero for octal. */
  lemma OctalParts()
    ensures Part("010") == Some(8) && Part("0377") == Some(255) && Part("0400") == None
    ensures Part("08") == None && Part("256") == None && Part("0") == Some(0)
  {
    assert "010"[..2] == "01" && "01"[..1] == "0" && "0"[..0] == "";
    assert "0377"[..3] == "037" && "037"[..2] == "03" && "03"[..1] == "0";
    assert "0400"[..3] == "040" && "040"[..2] == "04" && "04"[..1] == "0";
    assert "08"[..1] == "0" && "256"[..2] == "25" && "25"[..1] == "2" && "2"[..0] == "";
  }

  lemma DigitsStep(x: string, rest: string)
    requires x != "" && All(Digit, x)
    ensures Run(Digit, x + ("." + rest)) == Some((x, "." + rest))
    ensures Lit(".", "." + rest) == Some(rest)
  {
    RunStep(Digit, x, "." + rest);
  }

  lemma LastDigits(x: string)
    requires x != "" && All(Digit, x)
    ensures Run(Digit, x) == Some((x, ""))
  {
    RunStep(Digit, x, "");
    assert x + "" == x;
  }

  /** A quad with a part that is no byte is an OSError; otherwise the parts are the bytes, in
      order.  Without a netmask there are no bits. */
  lemma AtonParts(a: string, b: string, c: string, d: string)
    requires a != "" && b != "" && c != "" && d != ""
    requires All(Digit, a) && All(Digit, b) && All(Digit, c) && All(Digit, d)
    ensures Aton(Dotted(a, b, c, d))
         == if Part(a).Some? && Part(b).Some? && Part(c).Some? && Part(d).Some?
            then Some([Part(a).value, Part(b).value, Part(c).value, Part(d).value]) else None
    ensures NetmaskBits(None) == Some(0) && NetmaskBits(Some("")) == Some(0)
  {
    hide Part, Run, Lit, All;
    DigitsStep(a, b + ("." + (c + ("." + d))));
    DigitsStep(b, c + ("." + d));
    DigitsStep(c, d);
    LastDigits(d);
  }
}
