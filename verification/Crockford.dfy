/**
 Identifiers (src/internal/id/id.go): Crockford base32 by a 64-bit shift register that is
 never masked, and the time field of a ULID.  The specification is in terms of bits.
 */
module Crockford {
  import opened Common

  const ALPHABET := "0123456789ABCDEFGHJKMNPQRSTVWXYZ"

  type Byte = b: nat | b < 256
  type Quintet = d: nat | d < 32

  const TWO_TO_THE_64: nat := 0x1_0000_0000_0000_0000
  const TWO_TO_THE_48: nat := 0x1_0000_0000_0000

  // ---------------------------------------------------------------- numbers and bits

  /** The low `n` bits of `v`, most significant first. */
  function LowBits(v: nat, n: nat): (bits: seq<bool>)
    ensures |bits| == n
  {
    if n == 0 then [] else LowBits(v / 2, n - 1) + [v % 2 == 1]
  }

  function NumberOf(bits: seq<bool>): nat {
    if bits == [] then 0 else 2 * NumberOf(bits[..|bits| - 1]) + if bits[|bits| - 1] then 1 else 0
  }

  /** `v >> k` */
  function Shr(v: nat, k: nat): nat {
    if k == 0 then v else Shr(v / 2, k - 1)
  }

  /** `v << k`, before the register truncates it. */
  function Shl(v: nat, k: nat): nat {
    if k == 0 then v else 2 * Shl(v, k - 1)
  }

  lemma {:induction false} LowBitsSplit(v: nat, n: nat, k: nat)
    ensures LowBits(v, n + k) == LowBits(Shr(v, k), n) + LowBits(v, k)
  {
    if k > 0 {
      LowBitsSplit(v / 2, n, k - 1);
    }
  }

  lemma {:induction false} ShrDropsLowPart(v: nat, low: nat, k: nat)
    requires low < Shl(1, k)
    ensures Shr(Shl(v, k) + low, k) == v
  {
    if k > 0 {
      assert (Shl(v, k) + low) / 2 == Shl(v, k - 1) + low / 2;
      ShrDropsLowPart(v, low / 2, k - 1);
    }
  }

  /** What lies above the low `n` bits does not show in them. */
  lemma {:induction false} HighPartIsInvisible(v: nat, t: nat, n: nat)
    ensures LowBits(v + Shl(t, n), n) == LowBits(v, n)
  {
    if n > 0 {
      HighPartIsInvisible(v / 2, t, n - 1);
      assert (v + Shl(t, n)) / 2 == v / 2 + Shl(t, n - 1);
      assert (v + Shl(t, n)) % 2 == v % 2;
    }
  }

  lemma {:induction false} ShlAdds(v: nat, j: nat, k: nat)
    ensures Shl(v, j + k) == Shl(Shl(v, j), k)
  {
    if k > 0 {
      ShlAdds(v, j, k - 1);
    }
  }

  lemma SmallShifts(v: nat)
    ensures Shl(v, 5) == 32 * v && Shl(v, 8) == 256 * v && Shl(v, 16) == 0x1_0000 * v
  {
    assert Shl(v, 1) == 2 * v;
    assert Shl(v, 2) == 4 * v;
    assert Shl(v, 3) == 8 * v;
    assert Shl(v, 4) == 16 * v;
    ShlAdds(v, 4, 4);
    assert Shl(16 * v, 1) == 32 * v;
    assert Shl(16 * v, 2) == 64 * v;
    assert Shl(16 * v, 3) == 128 * v;
    ShlAdds(v, 8, 8);
    ShlAdds(256 * v, 4, 4);
    assert Shl(256 * v, 1) == 512 * v;
    assert Shl(256 * v, 2) == 1024 * v;
    assert Shl(256 * v, 3) == 2048 * v;
    assert Shl(4096 * v, 1) == 8192 * v;
    assert Shl(4096 * v, 2) == 16384 * v;
    assert Shl(4096 * v, 3) == 32768 * v;
  }

  lemma LargeShifts(v: nat)
    ensures Shl(v, 48) == TWO_TO_THE_48 * v && Shl(v, 64) == TWO_TO_THE_64 * v
  {
    SmallShifts(v);
    SmallShifts(0x1_0000 * v);
    SmallShifts(0x1_0000_0000 * v);
    SmallShifts(0x1_0000_0000_0000 * v);
    ShlAdds(v, 16, 16);
    ShlAdds(v, 32, 16);
    ShlAdds(v, 48, 16);
  }

  /** Truncating the register to 64 bits leaves its low bits alone. */
  lemma TruncationKeepsLowBits(v: nat, n: nat)
    requires n <= 64
    ensures LowBits(v % TWO_TO_THE_64, n) == LowBits(v, n)
  {
    var q := v / TWO_TO_THE_64;
    LargeShifts(q);
    ShlAdds(q, 64 - n, n);
    HighPartIsInvisible(v % TWO_TO_THE_64, Shl(q, 64 - n), n);
  }

  lemma MaskKeepsLowBits(v: nat)
    ensures LowBits(v % 32, 5) == LowBits(v, 5) && LowBits(v % 256, 8) == LowBits(v, 8)
  {
    SmallShifts(v / 32);
    SmallShifts(v / 256);
    HighPartIsInvisible(v % 32, v / 32, 5);
    HighPartIsInvisible(v % 256, v / 256, 8);
  }

  /** Shifting a byte in appends its eight bits. */
  lemma ByteJoins(v: nat, octet: Byte, n: nat)
    ensures LowBits(256 * v + octet, n + 8) == LowBits(v, n) + LowBits(octet, 8)
  {
    SmallShifts(v);
    SmallShifts(1);
    LowBitsSplit(256 * v + octet, n, 8);
    ShrDropsLowPart(v, octet, 8);
    HighPartIsInvisible(octet, v, 8);
  }

  lemma {:induction false} NumberOfLowBits(v: nat, n: nat)
    requires v < Shl(1, n)
    ensures NumberOf(LowBits(v, n)) == v
  {
    if n > 0 {
      NumberOfLowBits(v / 2, n - 1);
    }
  }

  lemma {:induction false} LowBitsOfNumber(bits: seq<bool>)
    ensures LowBits(NumberOf(bits), |bits|) == bits && NumberOf(bits) < Shl(1, |bits|)
  {
    if bits != [] {
      LowBitsOfNumber(bits[..|bits| - 1]);
    }
  }

  // ---------------------------------------------------------------- the specification

  /** Digits written out with `width` bits each. */
  function DigitBits(digits: seq<nat>, width: nat): seq<bool> {
    if digits == [] then [] else DigitBits(digits[..|digits| - 1], width) + LowBits(digits[|digits| - 1], width)
  }

  function ByteBits(src: seq<Byte>): seq<bool> {
    DigitBits(src, 8)
  }

  function QuintetBits(digits: seq<Quintet>): seq<bool> {
    DigitBits(digits, 5)
  }

  function Zeros(n: nat): seq<bool> {
    seq(n, _ => false)
  }

  /** The bits of `src`, filled up with zeros on the right to a multiple of five. */
  function PaddedBits(src: seq<Byte>): seq<bool> {
    ByteBits(src) + Zeros(Padding(|src|))
  }

  function Padding(n: nat): nat {
    (5 - 8 * n % 5) % 5
  }

  lemma DigitBitsGrow(digits: seq<nat>, d: nat, width: nat)
    ensures DigitBits(digits + [d], width) == DigitBits(digits, width) + LowBits(d, width)
  {
    assert (digits + [d])[..|digits|] == digits;
  }

  lemma {:induction false} DigitBitsLength(digits: seq<nat>, width: nat)
    ensures |DigitBits(digits, width)| == width * |digits|
  {
    if digits != [] {
      DigitBitsLength(digits[..|digits| - 1], width);
      assert width * |digits| == width * (|digits| - 1) + width;
    }
  }

  lemma PartGrows(a: seq<nat>, b: seq<nat>, d: nat, width: nat)
    requires DigitBits(a + b, width) == DigitBits(a, width) + DigitBits(b, width)
    ensures DigitBits(a + (b + [d]), width) == DigitBits(a, width) + DigitBits(b + [d], width)
  {
    assert a + (b + [d]) == (a + b) + [d];
    DigitBitsGrow(a + b, d, width);
    DigitBitsGrow(b, d, width);
    AppendBoth(DigitBits(a, width), DigitBits(b, width), LowBits(d, width), DigitBits(a + b, width));
  }

  lemma {:induction false} DigitBitsOfParts(a: seq<nat>, b: seq<nat>, width: nat)
    ensures DigitBits(a + b, width) == DigitBits(a, width) + DigitBits(b, width)
  {
    if b == [] {
      assert a + b == a;
    } else {
      DigitBitsOfParts(a, b[..|b| - 1], width);
      PartGrows(a, b[..|b| - 1], b[|b| - 1], width);
      assert b == b[..|b| - 1] + [b[|b| - 1]];
    }
  }

  lemma BitLengths(src: seq<Byte>, digits: seq<Quintet>)
    ensures |ByteBits(src)| == 8 * |src|
    ensures |QuintetBits(digits)| == 5 * |digits|
  {
    DigitBitsLength(src, 8);
    DigitBitsLength(digits, 5);
  }

  /** The bits cut into `k` groups of five. */
  function Groups(bits: seq<bool>, k: nat): (digits: seq<Quintet>)
    requires |bits| == 5 * k
    ensures |digits| == k
    decreases k
  {
    if k == 0 then []
    else
      var init, last := bits[..5 * (k - 1)], bits[5 * (k - 1)..];
      LowBitsOfNumber(last);
      SmallShifts(1);
      Groups(init, k - 1) + [NumberOf(last)]
  }

  lemma GroupsGrow(bits: seq<bool>, k: nat, last: seq<bool>)
    requires |bits| == 5 * k && |last| == 5
    ensures NumberOf(last) < 32 && LowBits(NumberOf(last), 5) == last
    ensures Groups(bits + last, k + 1) == Groups(bits, k) + [NumberOf(last)]
  {
    LowBitsOfNumber(last);
    SmallShifts(1);
    var all := bits + last;
    assert all[..5 * k] == bits && all[5 * k..] == last;
  }

  function CharOf(d: Quintet): char {
    ALPHABET[d]
  }

  function Text(digits: seq<Quintet>): (s: string)
    ensures |s| == |digits|
  {
    seq(|digits|, i requires 0 <= i < |digits| => CharOf(digits[i]))
  }

  /** The number of digits that `n` bytes need. */
  function DigitCount(n: nat): nat {
    (8 * n + 4) / 5
  }

  lemma PaddingFillsUp(n: nat)
    ensures 8 * n + Padding(n) == 5 * DigitCount(n)
  {
  }

  lemma PaddedLength(src: seq<Byte>)
    ensures |PaddedBits(src)| == 5 * DigitCount(|src|)
  {
    BitLengths(src, []);
    PaddingFillsUp(|src|);
  }

  /** The digits of `src`. */
  function Digits(src: seq<Byte>): (digits: seq<Quintet>)
    ensures |digits| == DigitCount(|src|)
  {
    PaddedLength(src);
    Groups(PaddedBits(src), DigitCount(|src|))
  }

  /** MSB-first groups of five bits with zero padding (section 6 of RFC 4648, Crockford's alphabet). */
  function Encoding(src: seq<Byte>): (s: string)
    ensures |s| == DigitCount(|src|)
  {
    Text(Digits(src))
  }

  // ---------------------------------------------------------------- the shift register

  /** One digit leaves the register. */
  lemma DigitLeaves(v: nat, n: nat)
    requires n >= 5
    ensures LowBits(Shr(v, n - 5) % 32, 5) + LowBits(v, n - 5) == LowBits(v, n)
  {
    LowBitsSplit(v, 5, n - 5);
    MaskKeepsLowBits(Shr(v, n - 5));
  }


  lemma RegisterShowsDigit(v: nat)
    ensures LowBits(v % TWO_TO_THE_64 % 32, 5) == LowBits(v, 5)
  {
    MaskKeepsLowBits(v % TWO_TO_THE_64);
    TruncationKeepsLowBits(v, 5);
  }

  lemma ShiftPadsRight(v: nat, n: nat, k: nat)
    ensures LowBits(Shl(v, k), n + k) == LowBits(v, n) + Zeros(k)
  {
    LowBitsSplit(Shl(v, k), n, k);
    PositiveShift(k);
    ShrDropsLowPart(v, 0, k);
    HighPartIsInvisible(0, v, k);
    ZeroBits(k);
  }

  /** The last, incomplete digit is padded on the right. */
  lemma LastDigit(v: nat, n: nat)
    requires n < 5
    ensures LowBits(Shl(v, 5 - n) % TWO_TO_THE_64 % 32, 5) == LowBits(v, n) + Zeros(5 - n)
  {
    RegisterShowsDigit(Shl(v, 5 - n));
    ShiftPadsRight(v, n, 5 - n);
  }

  lemma {:induction false} PositiveShift(k: nat)
    ensures Shl(1, k) > 0
  {
    if k > 0 {
      PositiveShift(k - 1);
    }
  }

  lemma {:induction false} ZeroBits(n: nat)
    ensures LowBits(0, n) == Zeros(n)
  {
    if n > 0 {
      ZeroBits(n - 1);
    }
  }

  /** The digits written and the bits left in the register are the bits read. */
  ghost predicate InStep(digits: seq<Quintet>, bitBuf: nat, bits: nat, read: seq<bool>) {
    QuintetBits(digits) + LowBits(bitBuf, bits) == read
  }

  lemma ReadOctet(written: seq<bool>, bitBuf: nat, next: nat, bits: nat, src: seq<nat>, octet: nat, width: nat)
    requires written + LowBits(bitBuf, bits) == DigitBits(src, width)
    requires LowBits(next, bits + width) == LowBits(bitBuf, bits) + LowBits(octet, width)
    ensures written + LowBits(next, bits + width) == DigitBits(src + [octet], width)
  {
    DigitBitsGrow(src, octet, width);
    AppendBoth(written, LowBits(bitBuf, bits), LowBits(octet, width), DigitBits(src, width));
  }

  /** `next` shows in its low bits what a shift by eight and the new byte make of the register. */
  lemma ReadByte(digits: seq<Quintet>, bitBuf: nat, next: nat, bits: nat, src: seq<Byte>, octet: Byte)
    requires InStep(digits, bitBuf, bits, ByteBits(src))
    requires LowBits(next, bits + 8) == LowBits(256 * bitBuf + octet, bits + 8)
    ensures InStep(digits, next, bits + 8, ByteBits(src + [octet]))
  {
    ByteJoins(bitBuf, octet, bits);
    ReadOctet(QuintetBits(digits), bitBuf, next, bits, src, octet, 8);
  }

  lemma AppendBoth(written: seq<bool>, waiting: seq<bool>, more: seq<bool>, read: seq<bool>)
    requires written + waiting == read
    ensures written + (waiting + more) == read + more
  {
  }

  lemma WriteDigit(digits: seq<Quintet>, d: Quintet)
    ensures QuintetBits(digits + [d]) == QuintetBits(digits) + LowBits(d, 5)
    ensures Text(digits + [d]) == Text(digits) + [CharOf(d)]
  {
    DigitBitsGrow(digits, d, 5);
  }

  lemma PaddingLength(n: nat, full: nat, rest: nat)
    requires 8 * n == 5 * full + rest && rest < 5
    ensures Padding(n) == if rest == 0 then 0 else 5 - rest
  {
  }

  lemma RegisterLength(digits: seq<Quintet>, bitBuf: nat, bits: nat, src: seq<Byte>)
    requires InStep(digits, bitBuf, bits, ByteBits(src))
    ensures |QuintetBits(digits)| + bits == |ByteBits(src)|
  {
  }

  /** At the end the register holds as many bits as padding makes a digit of. */
  lemma PaddingFits(digits: seq<Quintet>, bits: nat, src: seq<Byte>)
    requires bits < 5 && |QuintetBits(digits)| + bits == |ByteBits(src)|
    ensures Padding(|src|) == if bits == 0 then 0 else 5 - bits
  {
    BitLengths(src, digits);
    PaddingLength(|src|, |digits|, bits);
  }

  lemma FillUp(digits: seq<Quintet>, d: Quintet, bitBuf: nat, bits: nat, src: seq<Byte>)
    requires InStep(digits, bitBuf, bits, ByteBits(src))
    requires LowBits(d, 5) == LowBits(bitBuf, bits) + Zeros(Padding(|src|))
    ensures QuintetBits(digits + [d]) == PaddedBits(src)
  {
    var low, zeros := LowBits(bitBuf, bits), Zeros(Padding(|src|));
    WriteDigit(digits, d);
    assert QuintetBits(digits) + (low + zeros) == (QuintetBits(digits) + low) + zeros;
  }

  lemma DigitMoves(digits: seq<Quintet>, d: Quintet, bitBuf: nat, bits: nat, read: seq<bool>)
    requires bits >= 5 && d == Shr(bitBuf, bits - 5) % 32 && InStep(digits, bitBuf, bits, read)
    ensures InStep(digits + [d], bitBuf, bits - 5, read)
  {
    DigitLeaves(bitBuf, bits);
    WriteDigit(digits, d);
    AppendBoth(QuintetBits(digits), LowBits(d, 5), LowBits(bitBuf, bits - 5), QuintetBits(digits) + LowBits(d, 5));
  }

  /** Writes out every complete digit in the register. */
  method WriteDigits(s: string, bitBuf: nat, bits: nat, ghost digits: seq<Quintet>, ghost read: seq<bool>)
    returns (s': string, bits': nat, ghost digits': seq<Quintet>)
    requires s == Text(digits) && InStep(digits, bitBuf, bits, read)
    ensures bits' < 5 && s' == Text(digits') && InStep(digits', bitBuf, bits', read)
  {
    s', bits', digits' := s, bits, digits;
    while bits' >= 5
      invariant s' == Text(digits') && InStep(digits', bitBuf, bits', read)
    {
      var d: Quintet := Shr(bitBuf, bits' - 5) % 32;
      DigitMoves(digits', d, bitBuf, bits', read);
      WriteDigit(digits', d);
      s' := s' + [CharOf(d)];
      digits' := digits' + [d];
      bits' := bits' - 5;
    }
  }

  lemma NothingToFill(digits: seq<Quintet>, bitBuf: nat, src: seq<Byte>)
    requires InStep(digits, bitBuf, 0, ByteBits(src)) && Padding(|src|) == 0
    ensures QuintetBits(digits) == PaddedBits(src)
  {
    assert QuintetBits(digits) + [] == QuintetBits(digits);
    assert ByteBits(src) + [] == ByteBits(src);
  }

  lemma TextIsEncoding(digits: seq<Quintet>, src: seq<Byte>)
    requires QuintetBits(digits) == PaddedBits(src)
    ensures Text(digits) == Encoding(src)
  {
    GroupsOfQuintets(digits);
    PaddedLength(src);
  }

  /** The loop of the encoder; the register keeps every byte it has seen, truncated to 64 bits. */
  method EncodeCrockford(src: seq<Byte>) returns (s: string)
    ensures s == Encoding(src)
  {
    s := "";
    var bitBuf: nat, bits: nat := 0, 0;
    ghost var digits: seq<Quintet> := [];
    for i := 0 to |src|
      invariant bits < 5 && s == Text(digits)
      invariant InStep(digits, bitBuf, bits, ByteBits(src[..i]))
    {
      TruncationKeepsLowBits(256 * bitBuf + src[i], bits + 8);
      var next := (256 * bitBuf + src[i]) % TWO_TO_THE_64;
      ReadByte(digits, bitBuf, next, bits, src[..i], src[i]);
      assert src[..i + 1] == src[..i] + [src[i]];
      bitBuf := next;
      s, bits, digits := WriteDigits(s, bitBuf, bits + 8, digits, ByteBits(src[..i + 1]));
    }
    assert src[..|src|] == src;
    RegisterLength(digits, bitBuf, bits, src);
    PaddingFits(digits, bits, src);
    if bits > 0 {
      LastDigit(bitBuf, bits);
      var d: Quintet := Shl(bitBuf, 5 - bits) % TWO_TO_THE_64 % 32;
      WriteDigit(digits, d);
      FillUp(digits, d, bitBuf, bits, src);
      s := s + [CharOf(d)];
      digits := digits + [d];
    } else {
      NothingToFill(digits, bitBuf, src);
    }
    TextIsEncoding(digits, src);
  }

  // ---------------------------------------------------------------- order

  predicate NatLess(x: nat, y: nat) {
    x < y
  }

  predicate BitLess(x: bool, y: bool) {
    !x && y
  }

  predicate CharLess(x: char, y: char) {
    x < y
  }

  /** Lexicographic order, as of byte strings and of Go strings. */
  predicate LexLess<T(==)>(less: (T, T) -> bool, a: seq<T>, b: seq<T>) {
    b != [] && (a == [] || less(a[0], b[0]) || (a[0] == b[0] && LexLess(less, a[1..], b[1..])))
  }

  /** Of two sequences, parts of equal length decide from the left. */
  lemma {:induction false} LexOfParts<T>(less: (T, T) -> bool, x: seq<T>, y: seq<T>, u: seq<T>, v: seq<T>)
    requires |x| == |y| && |u| == |v| && forall t :: !less(t, t)
    ensures LexLess(less, x + u, y + v) <==> LexLess(less, x, y) || (x == y && LexLess(less, u, v))
  {
    if x == [] {
      assert x + u == u && y + v == v;
      LexIrreflexive(less, x);
    } else {
      assert (x + u)[1..] == x[1..] + u && (y + v)[1..] == y[1..] + v;
      LexOfParts(less, x[1..], y[1..], u, v);
      assert x == [x[0]] + x[1..] && y == [y[0]] + y[1..];
    }
  }

  lemma {:induction false} LexIrreflexive<T>(less: (T, T) -> bool, a: seq<T>)
    requires forall t :: !less(t, t)
    ensures !LexLess(less, a, a)
  {
    if a != [] {
      LexIrreflexive(less, a[1..]);
    }
  }

  lemma LexOfLast<T>(less: (T, T) -> bool, u: seq<T>, v: seq<T>, c: T, d: T)
    requires |u| == |v| && forall t :: !less(t, t)
    ensures LexLess(less, u + [c], v + [d]) <==> LexLess(less, u, v) || (u == v && less(c, d))
  {
    LexOfParts(less, u, v, [c], [d]);
    assert LexLess(less, [c], [d]) <==> less(c, d);
  }

  lemma {:induction false} LowBitsOrder(v: nat, w: nat, n: nat)
    requires v < Shl(1, n) && w < Shl(1, n)
    ensures LexLess(BitLess, LowBits(v, n), LowBits(w, n)) <==> v < w
    ensures LowBits(v, n) == LowBits(w, n) <==> v == w
  {
    NumberOfLowBits(v, n);
    NumberOfLowBits(w, n);
    if n > 0 {
      LowBitsOrder(v / 2, w / 2, n - 1);
      LexOfParts(BitLess, LowBits(v / 2, n - 1), LowBits(w / 2, n - 1), [v % 2 == 1], [w % 2 == 1]);
    }
  }

  /** Digits that `width` bits can hold. */
  predicate Fit(digits: seq<nat>, width: nat) {
    forall i | 0 <= i < |digits| :: digits[i] < Shl(1, width)
  }

  lemma LastDigitOrder(a: seq<nat>, b: seq<nat>, x: nat, y: nat, p: seq<bool>, q: seq<bool>, u: seq<bool>, v: seq<bool>)
    requires |a| == |b| && |p| == |q| && (LexLess<nat>(NatLess, a, b) <==> LexLess(BitLess, p, q))
             && (a == b <==> p == q)
    requires |u| == |v| && (LexLess(BitLess, u, v) <==> x < y) && (u == v <==> x == y)
    ensures LexLess<nat>(NatLess, a + [x], b + [y]) <==> LexLess(BitLess, p + u, q + v)
    ensures a + [x] == b + [y] <==> p + u == q + v
  {
    LexOfParts(BitLess, p, q, u, v);
    assert forall t: nat :: !NatLess(t, t);
    LexOfLast<nat>(NatLess, a, b, x, y);
    assert (a + [x])[..|a|] == a && (b + [y])[..|b|] == b && (a + [x])[|a|] == x && (b + [y])[|b|] == y;
    assert (p + u)[..|p|] == p && (q + v)[..|q|] == q && (p + u)[|p|..] == u && (q + v)[|q|..] == v;
  }

  ghost predicate OrderedAsBits(a: seq<nat>, b: seq<nat>, width: nat) {
    && |DigitBits(a, width)| == |DigitBits(b, width)|
    && (LexLess<nat>(NatLess, a, b) <==> LexLess(BitLess, DigitBits(a, width), DigitBits(b, width)))
    && (a == b <==> DigitBits(a, width) == DigitBits(b, width))
  }

  lemma OneMoreDigit(a: seq<nat>, b: seq<nat>, x: nat, y: nat, width: nat)
    requires |a| == |b| && OrderedAsBits(a, b, width) && x < Shl(1, width) && y < Shl(1, width)
    ensures OrderedAsBits(a + [x], b + [y], width)
  {
    LowBitsOrder(x, y, width);
    DigitBitsGrow(a, x, width);
    DigitBitsGrow(b, y, width);
    LastDigitOrder(a, b, x, y, DigitBits(a, width), DigitBits(b, width), LowBits(x, width), LowBits(y, width));
  }

  /** Digits are ordered, and told apart, as the bits they are written with. */
  lemma {:induction false} DigitOrder(a: seq<nat>, b: seq<nat>, width: nat)
    requires |a| == |b| && Fit(a, width) && Fit(b, width)
    ensures OrderedAsBits(a, b, width)
  {
    if a != [] {
      var a', b', x, y := a[..|a| - 1], b[..|b| - 1], a[|a| - 1], b[|b| - 1];
      DigitOrder(a', b', width);
      OneMoreDigit(a', b', x, y, width);
      assert a == a' + [x] && b == b' + [y];
    }
  }

  lemma ByteOrder(a: seq<Byte>, b: seq<Byte>)
    requires |a| == |b|
    ensures LexLess<nat>(NatLess, a, b) <==> LexLess(BitLess, ByteBits(a), ByteBits(b))
    ensures a == b <==> ByteBits(a) == ByteBits(b)
  {
    SmallShifts(1);
    DigitOrder(a, b, 8);
  }

  lemma AlphabetStep(d: Quintet, e: Quintet)
    requires d < e
    ensures CharOf(d) < CharOf(e)
  {
  }

  lemma AlphabetAscends(d: Quintet, e: Quintet)
    ensures CharOf(d) < CharOf(e) <==> d < e
    ensures CharOf(d) == CharOf(e) <==> d == e
  {
    if d < e {
      AlphabetStep(d, e);
    } else if e < d {
      AlphabetStep(e, d);
    }
  }

  lemma {:induction false} TextOrder(a: seq<Quintet>, b: seq<Quintet>)
    requires |a| == |b|
    ensures LexLess(CharLess, Text(a), Text(b)) <==> LexLess<nat>(NatLess, a, b)
  {
    if a != [] {
      TextOrder(a[1..], b[1..]);
      assert Text(a)[1..] == Text(a[1..]) && Text(b)[1..] == Text(b[1..]);
      AlphabetAscends(a[0], b[0]);
    }
  }

  /** Characters are ordered as the groups of five bits they stand for. */
  lemma TextOrderIsBitOrder(a: seq<Quintet>, b: seq<Quintet>)
    requires |a| == |b|
    ensures LexLess(CharLess, Text(a), Text(b)) <==> LexLess(BitLess, QuintetBits(a), QuintetBits(b))
  {
    TextOrder(a, b);
    SmallShifts(1);
    DigitOrder(a, b, 5);
  }

  lemma TextIsInjective(a: seq<Quintet>, b: seq<Quintet>)
    requires Text(a) == Text(b)
    ensures a == b
  {
    assert |a| == |Text(a)| == |b|;
    forall i | 0 <= i < |a|
      ensures a[i] == b[i]
    {
      assert Text(a)[i] == CharOf(a[i]) && Text(b)[i] == CharOf(b[i]);
      AlphabetAscends(a[i], b[i]);
    }
  }

  lemma QuintetsGrow(bits: seq<bool>, k: nat, last: seq<bool>)
    requires |bits| == 5 * k && |last| == 5
    ensures QuintetBits(Groups(bits + last, k + 1)) == QuintetBits(Groups(bits, k)) + last
  {
    GroupsGrow(bits, k, last);
    WriteDigit(Groups(bits, k), NumberOf(last));
  }

  lemma {:induction false} QuintetsOfGroups(bits: seq<bool>, k: nat)
    requires |bits| == 5 * k
    ensures QuintetBits(Groups(bits, k)) == bits
    decreases k
  {
    if k > 0 {
      var init, last := bits[..5 * (k - 1)], bits[5 * (k - 1)..];
      QuintetsOfGroups(init, k - 1);
      QuintetsGrow(init, k - 1, last);
      assert bits == init + last;
    }
  }

  lemma GroupsOfQuintets(digits: seq<Quintet>)
    ensures |QuintetBits(digits)| == 5 * |digits| && Groups(QuintetBits(digits), |digits|) == digits
  {
    BitLengths([], digits);
    QuintetsOfGroups(QuintetBits(digits), |digits|);
    QuintetBitsInjective(Groups(QuintetBits(digits), |digits|), digits);
  }

  lemma QuintetBitsInjective(a: seq<Quintet>, b: seq<Quintet>)
    requires |a| == |b| && QuintetBits(a) == QuintetBits(b)
    ensures a == b
  {
    SmallShifts(1);
    DigitOrder(a, b, 5);
  }

  lemma DigitsShowBits(src: seq<Byte>)
    ensures QuintetBits(Digits(src)) == PaddedBits(src)
  {
    PaddedLength(src);
    QuintetsOfGroups(PaddedBits(src), DigitCount(|src|));
  }

  /** String order of encodings is byte order (as in section 7 of RFC 4648). */
  lemma EncodingKeepsOrder(a: seq<Byte>, b: seq<Byte>)
    requires |a| == |b|
    ensures LexLess(CharLess, Encoding(a), Encoding(b)) <==> LexLess<nat>(NatLess, a, b)
  {
    ByteOrder(a, b);
    PaddingKeepsOrder(a, b);
    TextOrderIsBitOrder(Digits(a), Digits(b));
    DigitsShowBits(a);
    DigitsShowBits(b);
  }

  lemma PaddingKeepsOrder(a: seq<Byte>, b: seq<Byte>)
    requires |a| == |b|
    ensures LexLess(BitLess, PaddedBits(a), PaddedBits(b)) <==> LexLess(BitLess, ByteBits(a), ByteBits(b))
  {
    var zeros := Zeros(Padding(|a|));
    BitLengths(a, []);
    BitLengths(b, []);
    LexOfParts(BitLess, ByteBits(a), ByteBits(b), zeros, zeros);
    LexIrreflexive(BitLess, zeros);
  }

  /** Different byte strings of one length have different encodings. */
  lemma EncodingIsInjective(a: seq<Byte>, b: seq<Byte>)
    requires |a| == |b|
    ensures Encoding(a) == Encoding(b) <==> a == b
  {
    if Encoding(a) == Encoding(b) {
      TextIsInjective(Digits(a), Digits(b));
      DigitsShowBits(a);
      DigitsShowBits(b);
      BitLengths(a, []);
      BitLengths(b, []);
      assert PaddedBits(a)[..8 * |a|] == ByteBits(a) && PaddedBits(b)[..8 * |b|] == ByteBits(b);
      ByteOrder(a, b);
    }
  }

  // ---------------------------------------------------------------- the time field

  /** `strings.IndexRune`: the first position of `c` at or after `from`. */
  function IndexRune(s: string, c: char, from: nat): (i: Option<nat>)
    requires from <= |s|
    ensures i.Some? ==> i.value < |s| && s[i.value] == c
    ensures i.None? <==> forall k | from <= k < |s| :: s[k] != c
    decreases |s| - from
  {
    if from == |s| then None else if s[from] == c then Some(from) else IndexRune(s, c, from + 1)
  }

  predicate InAlphabet(c: char) {
    IndexRune(ALPHABET, c, 0).Some?
  }

  function QuintetOf(c: char): Quintet
    requires InAlphabet(c)
  {
    IndexRune(ALPHABET, c, 0).value
  }

  lemma CharHasQuintet(d: Quintet)
    ensures InAlphabet(CharOf(d)) && QuintetOf(CharOf(d)) == d
  {
    AlphabetAscends(QuintetOf(CharOf(d)), d);
  }

  function QuintetsOf(s: string): (digits: seq<Quintet>)
    requires forall i | 0 <= i < |s| :: InAlphabet(s[i])
    ensures |digits| == |s|
  {
    seq(|s|, i requires 0 <= i < |s| => QuintetOf(s[i]))
  }

  /** The 50 bits of the first ten characters. */
  function OpeningBits(body: string): (bits: seq<bool>)
    requires |body| >= 10 && forall i | 0 <= i < 10 :: InAlphabet(body[i])
    ensures |bits| == 50
  {
    BitLengths([], QuintetsOf(body[..10]));
    QuintetBits(QuintetsOf(body[..10]))
  }

  /** The number in the first 48 bits of a body of 26 characters. */
  function DecodedTime(body: string): Result<nat> {
    if |body| != 26 || exists i | 0 <= i < 10 :: !InAlphabet(body[i]) then Err
    else Ok(NumberOf(OpeningBits(body)[..48]))
  }

  lemma {:induction false} NumberOfParts(a: seq<bool>, b: seq<bool>)
    ensures NumberOf(a + b) == Shl(NumberOf(a), |b|) + NumberOf(b)
  {
    if b == [] {
      assert a + b == a;
    } else {
      assert (a + b)[..|a + b| - 1] == a + b[..|b| - 1];
      NumberOfParts(a, b[..|b| - 1]);
    }
  }

  lemma QuintetAppended(digits: seq<Quintet>, d: Quintet)
    ensures NumberOf(QuintetBits(digits + [d])) == 32 * NumberOf(QuintetBits(digits)) + d
  {
    WriteDigit(digits, d);
    NumberOfParts(QuintetBits(digits), LowBits(d, 5));
    SmallShifts(NumberOf(QuintetBits(digits)));
    SmallShifts(1);
    NumberOfLowBits(d, 5);
  }

  // ---------------------------------------------------------------- what the encoding says

  /** The number that digits stand for in a base. */
  function Numeral(digits: seq<nat>, base: nat): nat {
    if digits == [] then 0 else base * Numeral(digits[..|digits| - 1], base) + digits[|digits| - 1]
  }

  lemma {:induction false} QuintetsAreNumeral(digits: seq<Quintet>)
    ensures NumberOf(QuintetBits(digits)) == Numeral(digits, 32)
  {
    if digits != [] {
      var init, last := digits[..|digits| - 1], digits[|digits| - 1];
      QuintetsAreNumeral(init);
      QuintetAppended(init, last);
      assert digits == init + [last];
    }
  }

  lemma {:induction false} BytesAreNumeral(src: seq<Byte>)
    ensures NumberOf(ByteBits(src)) == Numeral(src, 256)
  {
    if src != [] {
      var init, last := src[..|src| - 1], src[|src| - 1];
      BytesAreNumeral(init);
      NumberOfParts(ByteBits(init), LowBits(last, 8));
      SmallShifts(NumberOf(ByteBits(init)));
      SmallShifts(1);
      NumberOfLowBits(last, 8);
    }
  }

  lemma {:induction false} ZerosAreNothing(n: nat)
    ensures NumberOf(Zeros(n)) == 0
  {
    if n > 0 {
      ZerosAreNothing(n - 1);
      assert Zeros(n)[..n - 1] == Zeros(n - 1);
    }
  }

  lemma ShortShifts(v: nat, n: nat)
    requires n < 5
    ensures Shl(v, n) == v * [1, 2, 4, 8, 16][n]
  {
    assert Shl(v, 1) == 2 * v;
    assert Shl(v, 2) == 4 * v;
    assert Shl(v, 3) == 8 * v;
    assert Shl(v, 4) == 16 * v;
  }

  /**
   The encoding is a numeral in base 32: that of the number the bytes make in base 256, with
   as many binary zeros behind it, fewer than five, as fill up the last digit.
   */
  lemma EncodingIsNumeral(src: seq<Byte>)
    ensures forall c | c in Encoding(src) :: InAlphabet(c)
    ensures var digits := QuintetsOf(Encoding(src));
            var padding := 5 * |digits| - 8 * |src|;
            0 <= padding < 5 && Numeral(digits, 32) == Numeral(src, 256) * [1, 2, 4, 8, 16][padding]
  {
    QuintetsOfText(Digits(src));
    DigitsShowBits(src);
    QuintetsAreNumeral(Digits(src));
    NumberOfParts(ByteBits(src), Zeros(Padding(|src|)));
    ZerosAreNothing(Padding(|src|));
    BytesAreNumeral(src);
    ShortShifts(Numeral(src, 256), Padding(|src|));
    PaddingFillsUp(|src|);
  }

  lemma DropTwoBits(bits: seq<bool>)
    requires |bits| >= 2
    ensures NumberOf(bits) / 4 == NumberOf(bits[..|bits| - 2])
  {
    var init := bits[..|bits| - 1];
    assert init[..|init| - 1] == bits[..|bits| - 2];
  }

  /** The number the first `i` characters stand for. */
  ghost function OpeningNumber(body: string, i: nat): nat
    requires i <= |body| && forall k | 0 <= k < i :: InAlphabet(body[k])
  {
    NumberOf(QuintetBits(QuintetsOf(body[..i])))
  }

  lemma OpeningGrows(body: string, i: nat)
    requires i < |body| && forall k | 0 <= k <= i :: InAlphabet(body[k])
    ensures OpeningNumber(body, i + 1) == 32 * OpeningNumber(body, i) + QuintetOf(body[i])
  {
    assert QuintetsOf(body[..i + 1]) == QuintetsOf(body[..i]) + [QuintetOf(body[i])];
    QuintetAppended(QuintetsOf(body[..i]), QuintetOf(body[i]));
  }

  lemma TopBitsAreTime(body: string)
    requires |body| == 26 && forall k | 0 <= k < 10 :: InAlphabet(body[k])
    ensures DecodedTime(body) == Ok(OpeningNumber(body, 10) / 4)
  {
    DropTwoBits(OpeningBits(body));
  }

  method DecodeCrockfordTime(body: string) returns (r: Result<nat>)
    ensures r == DecodedTime(body)
  {
    if |body| != 26 {
      return Err;
    }
    var ms: nat := 0;
    for i := 0 to 10
      invariant forall k | 0 <= k < i :: InAlphabet(body[k])
      invariant ms == OpeningNumber(body, i)
    {
      var idx := IndexRune(ALPHABET, body[i], 0);
      if idx.None? {
        assert !InAlphabet(body[i]);
        return Err;
      }
      OpeningGrows(body, i);
      ms := 32 * ms + idx.value;
    }
    TopBitsAreTime(body);
    return Ok(ms / 4);
  }

  // ---------------------------------------------------------------- ULIDs

  /** The low `n` bytes of `v`, most significant first. */
  function BigEndian(v: nat, n: nat): (bytes: seq<Byte>)
    ensures |bytes| == n
    decreases n
  {
    if n == 0 then [] else BigEndian(Shr(v, 8), n - 1) + [v % 256]
  }

  lemma {:induction false} ShrAdds(v: nat, j: nat, k: nat)
    ensures Shr(Shr(v, j), k) == Shr(v, j + k)
  {
    if j > 0 {
      ShrAdds(v / 2, j - 1, k);
    }
  }

  lemma {:induction false} BigEndianAt(v: nat, n: nat, i: nat)
    requires i < n
    ensures BigEndian(v, n)[i] == Shr(v, 8 * (n - 1 - i)) % 256
    decreases n
  {
    if i < n - 1 {
      BigEndianAt(Shr(v, 8), n - 1, i);
      ShrAdds(v, 8, 8 * (n - 2 - i));
    }
  }

  function ByteAt(v: nat, shift: nat): Byte {
    Shr(v, shift) % 256
  }

  lemma SixBytes(ms: nat)
    ensures BigEndian(ms, 6) ==
            [ByteAt(ms, 40), ByteAt(ms, 32), ByteAt(ms, 24), ByteAt(ms, 16), ByteAt(ms, 8), ByteAt(ms, 0)]
  {
    BigEndianAt(ms, 6, 0);
    BigEndianAt(ms, 6, 1);
    BigEndianAt(ms, 6, 2);
    BigEndianAt(ms, 6, 3);
    BigEndianAt(ms, 6, 4);
    BigEndianAt(ms, 6, 5);
  }

  /** A millisecond count, truncated to 48 bits, and ten random bytes. */
  method NewUlid(ms: nat, random: seq<Byte>) returns (id: string)
    requires |random| == 10
    ensures id == Encoding(BigEndian(ms, 6) + random)
  {
    var b := new Byte[16](_ => 0);
    b[0], b[1], b[2] := ByteAt(ms, 40), ByteAt(ms, 32), ByteAt(ms, 24);
    b[3], b[4], b[5] := ByteAt(ms, 16), ByteAt(ms, 8), ByteAt(ms, 0);
    ghost var time := b[..6];
    assert time == [ByteAt(ms, 40), ByteAt(ms, 32), ByteAt(ms, 24), ByteAt(ms, 16), ByteAt(ms, 8), ByteAt(ms, 0)];
    SixBytes(ms);
    forall i | 0 <= i < 10 {
      b[6 + i] := random[i];
    }
    assert b[..] == time + random;
    id := EncodeCrockford(b[..]);
  }

  lemma {:induction false} BigEndianShowsBits(v: nat, n: nat)
    ensures ByteBits(BigEndian(v, n)) == LowBits(v, 8 * n)
    decreases n
  {
    if n > 0 {
      BigEndianShowsBits(Shr(v, 8), n - 1);
      LowBitsSplit(v, 8 * (n - 1), 8);
      MaskKeepsLowBits(v);
      var init := BigEndian(Shr(v, 8), n - 1);
      assert (init + [v % 256])[..n - 1] == init;
    }
  }

  lemma QuintetsOfText(digits: seq<Quintet>)
    ensures forall c | c in Text(digits) :: InAlphabet(c)
    ensures QuintetsOf(Text(digits)) == digits
  {
    forall i | 0 <= i < |digits|
      ensures InAlphabet(Text(digits)[i]) && QuintetOf(Text(digits)[i]) == digits[i]
    {
      CharHasQuintet(digits[i]);
    }
  }

  lemma LeadingBits(digits: seq<Quintet>, k: nat)
    requires k <= |digits|
    ensures |QuintetBits(digits)| >= 5 * k && QuintetBits(digits)[..5 * k] == QuintetBits(digits[..k])
  {
    DigitBitsOfParts(digits[..k], digits[k..], 5);
    assert digits == digits[..k] + digits[k..];
    BitLengths([], digits[..k]);
  }

  /** The first ten characters of an encoding show its first 50 bits. */
  lemma OpeningBitsOfEncoding(src: seq<Byte>)
    requires |src| == 16
    ensures |Encoding(src)| == 26 && (forall i | 0 <= i < 10 :: InAlphabet(Encoding(src)[i]))
    ensures |PaddedBits(src)| >= 50 && OpeningBits(Encoding(src)) == PaddedBits(src)[..50]
  {
    var digits := Digits(src);
    DigitsShowBits(src);
    LeadingBits(digits, 10);
    QuintetsOfText(digits);
    QuintetsOfText(digits[..10]);
    assert Encoding(src)[..10] == Text(digits[..10]);
  }

  lemma TimeIsFirst(ms: nat, random: seq<Byte>)
    requires |random| == 10
    ensures |PaddedBits(BigEndian(ms, 6) + random)| >= 50
    ensures PaddedBits(BigEndian(ms, 6) + random)[..50][..48] == LowBits(ms, 48)
  {
    var time := BigEndian(ms, 6);
    DigitBitsOfParts(time, random, 8);
    BigEndianShowsBits(ms, 6);
    BitLengths(time, []);
    BitLengths(random, []);
    OpeningOfParts(ByteBits(time), ByteBits(random), Zeros(Padding(16)));
  }

  lemma OpeningOfParts(a: seq<bool>, b: seq<bool>, c: seq<bool>)
    requires |a| == 48 && |b| >= 2
    ensures |(a + b) + c| >= 50 && ((a + b) + c)[..50][..48] == a
  {
  }

  /** A timestamp of 48 bits survives encoding and decoding, whatever the random bytes. */
  lemma TimeRoundTrips(ms: nat, random: seq<Byte>)
    requires ms < TWO_TO_THE_48 && |random| == 10
    ensures DecodedTime(Encoding(BigEndian(ms, 6) + random)) == Ok(ms)
  {
    OpeningBitsOfEncoding(BigEndian(ms, 6) + random);
    TimeIsFirst(ms, random);
    LargeShifts(1);
    NumberOfLowBits(ms, 48);
  }

  /** Task IDs sort by creation time. */
  lemma IdsSortByTime(ms: nat, later: nat, random: seq<Byte>, random': seq<Byte>)
    requires ms < later < TWO_TO_THE_48 && |random| == 10 && |random'| == 10
    ensures LexLess(CharLess, "task-" + Encoding(BigEndian(ms, 6) + random),
                    "task-" + Encoding(BigEndian(later, 6) + random'))
  {
    var a, b := BigEndian(ms, 6), BigEndian(later, 6);
    BigEndianShowsBits(ms, 6);
    BigEndianShowsBits(later, 6);
    LargeShifts(1);
    LowBitsOrder(ms, later, 48);
    ByteOrder(a, b);
    assert forall t: nat :: !NatLess(t, t);
    LexOfParts<nat>(NatLess, a, b, random, random');
    EncodingKeepsOrder(a + random, b + random');
    LexOfParts(CharLess, "task-", "task-", Encoding(a + random), Encoding(b + random'));
  }
}
