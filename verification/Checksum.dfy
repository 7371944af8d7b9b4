/** The Internet checksum: summing in the machine's byte order against the definition in
    sections 1 and 2 of RFC 1071, which sums big-endian words with end-around carry. */
module Checksums {
  import opened Arith

  type Byte = x: nat | x < 256

  // ----- the definition -----

  /** Sixteen-bit ones' complement addition: a carry out is added back in. */
  function OnesAdd(a: nat, b: nat): nat { if a + b > 0xffff then a + b - 0xffff else a + b }

  function BigWord(hi: Byte, lo: Byte): nat { hi * 256 + lo }

  function LittleWord(lo: Byte, hi: Byte): nat { hi * 256 + lo }

  /** The ones' complement sum of the big-endian words of the bytes; an odd last byte is
      followed by a zero byte. */
  function OnesSum(b: seq<Byte>): nat {
    if b == [] then 0 else if |b| == 1 then BigWord(b[0], 0) else OnesAdd(BigWord(b[0], b[1]), OnesSum(b[2..]))
  }

  function Internet(b: seq<Byte>): nat {
    var s := OnesSum(b);
    if s <= 0xffff then 0xffff - s else 0
  }

  // ----- the code's way -----

  const WORD32: nat := 0x1_0000_0000

  /** The plain sum of the little-endian words; a last odd byte is left out. */
  function LittleSum(b: seq<Byte>): nat {
    if |b| < 2 then 0 else LittleWord(b[0], b[1]) + LittleSum(b[2..])
  }

  predicate OddLength(b: seq<Byte>) { |b| % 2 != 0 }

  /** What an odd last byte adds: it is shifted up as if it were the first byte of a
      big-endian word. */
  function OddByte(b: seq<Byte>): nat { if OddLength(b) then LastByte(b) else 0 }

  function Fold(s: nat): nat { s % 0x1_0000 + s / 0x1_0000 }

  function SwapBytes(x: nat): nat { x % 256 * 256 + x / 256 % 256 }

  function Invert(x: nat): nat { 0xffff - x % 0x1_0000 }

  /** The one representative of `s` modulo 65535 in 1..65535, or zero for zero. */
  function Residue(s: nat): (r: nat)
    ensures r <= 65535
  {
    if s <= 65535 then s else Residue(s - 65535)
  }

  /** What folding the carries in twice, inverting and swapping the two bytes come to
      (`Finished`): modulo 65535 folding changes nothing and swapping multiplies by 256. */
  function Finish(s: nat): nat { 0xffff - Residue(256 * s) }

  /** The result of the code for a starting value and any bytes. */
  function Summed(start: nat, b: seq<Byte>): nat { Finish(Wrap(start + LittleSum(b) + OddByte(b))) }

  function Wrap(x: nat): nat { x % WORD32 }

  /** Adds up the bytes with wrap-around at 32 bits, folds the carries in twice, inverts, and
      swaps the two bytes of the result. */
  method Checksum(start: nat, bytes: seq<Byte>) returns (r: nat)
    requires start < WORD32
    ensures r == Summed(start, bytes)
    ensures start == 0 && |bytes| <= 131071 ==>
              (r == Internet(bytes) <==> Summable(bytes))
  {
    hide *;
    if start == 0 && |bytes| <= 131071 { ChecksumIsInternet(bytes); }
    var checksum, ii, even := start, 0, EvenPart(|bytes|);
    Begin(start, bytes, even);
    while ii < even
      invariant ii <= even && EvenPart(ii) == ii
      invariant checksum == SumTo(start, bytes, ii)
    {
      LittleNext(start, bytes, ii);
      checksum := Wrap(checksum + LittleWord(bytes[ii], bytes[ii + 1]));
      ii := ii + 2;
    }
    LittleEnd(start, bytes);
    if OddLength(bytes) {
      checksum := Wrap(checksum + LastByte(bytes));
    }
    WrapRange(start, bytes);
    Finished(checksum);
    checksum := Fold(checksum);
    checksum := Fold(checksum);
    return SwapBytes(Invert(checksum));
  }

  function LastByte(b: seq<Byte>): nat
    requires OddLength(b)
  {
    BigWord(b[|b| - 1], 0)
  }

  /** The accumulator after the first `n` bytes. */
  function SumTo(start: nat, b: seq<Byte>, n: nat): nat
    requires n <= |b|
  {
    Wrap(start + LittleSum(b[..n]))
  }

  function EvenPart(n: nat): nat { n - n % 2 }

  lemma EvenNear(n: nat)
    ensures EvenPart(n) <= n < EvenPart(n) + 2 && EvenPart(n) % 2 == 0
  {
  }

  lemma Begin(start: nat, b: seq<Byte>, even: nat)
    requires start < WORD32 && even == EvenPart(|b|)
    ensures even <= |b| && EvenPart(0) == 0 && EvenPart(even) == even && SumTo(start, b, 0) == start
  {
    assert b[..0] == [];
  }

  lemma WrapSmall(x: nat)
    requires x < WORD32
    ensures Wrap(x) == x
  {
  }

  lemma WrapRange(start: nat, b: seq<Byte>)
    ensures EvenPart(|b|) <= |b| && SumTo(start, b, EvenPart(|b|)) < WORD32
    ensures OddLength(b) ==> Wrap(SumTo(start, b, EvenPart(|b|)) + LastByte(b)) < WORD32
  {
  }

  lemma WrapAdd(x: nat, y: nat)
    ensures Wrap(Wrap(x) + y) == Wrap(x + y)
  {
  }

  lemma LittleNext(start: nat, b: seq<Byte>, i: nat)
    requires EvenPart(i) == i < EvenPart(|b|)
    ensures i + 2 <= EvenPart(|b|) <= |b| && EvenPart(i + 2) == i + 2
    ensures SumTo(start, b, i + 2) == Wrap(SumTo(start, b, i) + LittleWord(b[i], b[i + 1]))
  {
    var two := b[i..i + 2];
    assert two[2..] == [] && two[0] == b[i] && two[1] == b[i + 1];
    assert LittleSum(two) == LittleWord(b[i], b[i + 1]);
    LittleSplit(b[..i], two);
    hide LittleWord, LittleSum, Wrap;
    assert b[..i + 2] == b[..i] + two;
    WrapAdd(start + LittleSum(b[..i]), LittleWord(b[i], b[i + 1]));
  }

  lemma LittleEnd(start: nat, b: seq<Byte>)
    ensures EvenPart(|b|) <= |b|
    ensures !OddLength(b) ==> Summed(start, b) == Finish(SumTo(start, b, EvenPart(|b|)))
    ensures OddLength(b) ==> Summed(start, b) == Finish(Wrap(SumTo(start, b, EvenPart(|b|)) + LastByte(b)))
  {
    hide LittleSum, Wrap, LastByte, Finish, EvenPart, OddLength;
    EvenNear(|b|);
    LittleEnds(b, EvenPart(|b|));
    if OddLength(b) { WrapAdd(start + LittleSum(b), LastByte(b)); }
  }

  lemma LittleEnds(b: seq<Byte>, n: nat)
    requires n <= |b| < n + 2 && n % 2 == 0
    ensures LittleSum(b[..n]) == LittleSum(b)
  {
    hide LittleWord;
    var a, z := b[..n], b[n..];
    LittleSplit(a, z);
    assert LittleSum(z) == 0;
    hide LittleSum;
    assert b == a + z;
  }

  lemma {:induction false} LittleSplit(a: seq<Byte>, b: seq<Byte>)
    requires |a| % 2 == 0
    ensures LittleSum(a + b) == LittleSum(a) + LittleSum(b)
    decreases |a|
  {
    if a == [] {
      assert a + b == b;
    } else {
      LittleSplit(a[2..], b);
      assert (a + b)[2..] == a[2..] + b;
    }
  }

  // ----- the two agree -----

  lemma {:induction false} ResidueUnique(s: nat, r: nat, k: int)
    requires s > 0 && 1 <= r <= 65535 && s == r + 65535 * k
    ensures Residue(s) == r
    decreases s
  {
    if k > 0 { ResidueUnique(s - 65535, r, k - 1); }
  }

  lemma {:induction false} ResidueOf(s: nat) returns (k: nat)
    ensures Residue(s) <= 65535 && s == Residue(s) + 65535 * k && (s > 0 ==> Residue(s) > 0)
    decreases s
  {
    if s <= 65535 {
      k := 0;
    } else {
      var rest := ResidueOf(s - 65535);
      k := rest + 1;
    }
  }

  lemma ResidueAdd(a: nat, b: nat)
    ensures OnesAdd(Residue(a), Residue(b)) == Residue(a + b)
  {
    hide Residue;
    var p := ResidueOf(a);
    var q := ResidueOf(b);
    var _ := ResidueOf(a + b);
    var r := OnesAdd(Residue(a), Residue(b));
    if a + b > 0 {
      var carry := if Residue(a) + Residue(b) > 0xffff then 1 else 0;
      ResidueUnique(a + b, r, p + q + carry);
    }
  }

  /** The plain sum of the big-endian words. */
  function BigSum(b: seq<Byte>): nat {
    if b == [] then 0 else if |b| == 1 then BigWord(b[0], 0) else BigWord(b[0], b[1]) + BigSum(b[2..])
  }

  lemma WordResidue(hi: Byte, lo: Byte)
    ensures Residue(BigWord(hi, lo)) == BigWord(hi, lo)
  {
  }

  lemma {:induction false} OnesIsResidue(b: seq<Byte>)
    ensures OnesSum(b) == Residue(BigSum(b)) <= 65535
    decreases |b|
  {
    var _ := ResidueOf(BigSum(b));
    if |b| == 1 { WordResidue(b[0], 0); }
    if |b| >= 2 {
      WordResidue(b[0], b[1]);
      hide Residue, BigWord, OnesAdd;
      OnesIsResidue(b[2..]);
      ResidueAdd(BigWord(b[0], b[1]), BigSum(b[2..]));
    }
  }

  lemma FoldTwice(s: nat)
    requires s < WORD32
    ensures Fold(Fold(s)) == Residue(s) <= 65535
  {
    var h := s / 0x1_0000;
    var f := Fold(s);
    var g := f / 0x1_0000;
    assert f == s - 65535 * h && Fold(f) == f - 65535 * g;
    if s > 0 { ResidueUnique(s, Fold(f), h + g); }
  }

  /** Swapping bytes is multiplying by 256 modulo 65535. */
  lemma SwapScales(x: nat)
    requires x <= 65535
    ensures SwapBytes(x) == 256 * x - 65535 * (x / 256) && SwapBytes(x) <= 65535 && (x > 0 ==> SwapBytes(x) > 0)
    ensures SwapBytes(65535 - x) == 65535 - SwapBytes(x)
  {
    var hi, lo := x / 256, x % 256;
    assert x == 256 * hi + lo && hi < 256;
    assert 65535 - x == 256 * (255 - hi) + (255 - lo);
    assert (65535 - x) / 256 == 255 - hi && (65535 - x) % 256 == 255 - lo;
  }

  lemma {:induction false} BigFromLittle(b: seq<Byte>) returns (k: nat)
    requires |b| % 2 == 0
    ensures BigSum(b) + 65535 * k == 256 * LittleSum(b)
    ensures BigSum(b) == 0 <==> LittleSum(b) == 0
    decreases |b|
  {
    if |b| >= 2 {
      var rest := BigFromLittle(b[2..]);
      k := rest + b[1];
    } else {
      k := 0;
    }
  }

  /** Two folds, inverting and swapping compute `Finish`. */
  lemma Finished(s: nat)
    requires s < WORD32
    ensures SwapBytes(Invert(Fold(Fold(s)))) == Finish(s)
  {
    hide Residue, SwapBytes, Fold;
    FoldTwice(s);
    var p := ResidueOf(s);
    var x := Residue(s);
    SwapScales(x);
    if s > 0 { ResidueUnique(256 * s, SwapBytes(x), 256 * p + x / 256); } else { ZeroResidue(); }
  }

  lemma ZeroResidue()
    ensures Residue(0) == 0 && SwapBytes(0) == 0
  {
  }

  lemma {:induction false} LittleBound(b: seq<Byte>)
    ensures LittleSum(b) <= 65535 * (|b| / 2)
    decreases |b|
  {
    if |b| >= 2 { LittleBound(b[2..]); }
  }

  lemma FinishMeans(b: seq<Byte>)
    requires |b| % 2 == 0
    ensures Finish(LittleSum(b)) == Internet(b)
  {
    hide Residue, LittleSum, BigSum, OnesSum;
    var k := BigFromLittle(b);
    var m := ResidueOf(BigSum(b));
    if BigSum(b) > 0 { ResidueUnique(256 * LittleSum(b), Residue(BigSum(b)), m + k); }
    OnesIsResidue(b);
  }

  /** The 32-bit accumulator does not wrap around. */
  predicate NoWrap(pseudo: seq<Byte>, b: seq<Byte>) { LittleSum(pseudo) + LittleSum(b) + OddByte(b) < WORD32 }

  lemma ShortNoWrap(pseudo: seq<Byte>, b: seq<Byte>)
    requires |pseudo| % 2 == 0 && |pseudo| + |b| <= 131071
    ensures NoWrap(pseudo, b)
  {
    LittleBound(pseudo);
    LittleBound(b);
  }

  /** A zero byte at the end of an odd length changes nothing by definition. */
  lemma {:induction false} PadZero(b: seq<Byte>)
    requires |b| % 2 == 1
    ensures OnesSum(b + [0]) == OnesSum(b)
    decreases |b|
  {
    hide BigWord;
    var z: seq<Byte> := b + [0];
    if |b| == 1 {
      assert z[2..] == [] && z[0] == b[0] && z[1] == 0;
      WordOnly(b[0]);
    } else {
      PadZero(b[2..]);
      assert z[2..] == b[2..] + [0] && z[0] == b[0] && z[1] == b[1];
    }
  }

  lemma WordOnly(hi: Byte)
    ensures OnesAdd(BigWord(hi, 0), 0) == BigWord(hi, 0)
  {
  }

  /** The last byte as a number. */
  function Last(b: seq<Byte>): nat
    requires b != []
  {
    b[|b| - 1]
  }

  lemma LastPair(x: Byte)
    ensures LittleSum([x, 0]) == x
  {
    var two: seq<Byte> := [x, 0];
    assert two[2..] == [];
  }

  lemma PadLittle(b: seq<Byte>, n: nat)
    requires |b| == n + 1 && n % 2 == 0
    ensures LittleSum(b + [0]) == LittleSum(b) + Last(b)
  {
    hide LittleSum;
    var front, two := b[..n], [b[n], 0];
    LittleEnds(b, n);
    LastPair(b[n]);
    LittleSplit(front, two);
    assert b + [0] == front + two;
  }

  /** Adding less than one modulus, but something, changes the residue. */
  lemma ResidueMoves(s: nat, d: nat)
    requires d < 65535 && s > 0
    ensures Residue(s) == Residue(s + d) <==> d == 0
  {
    hide Residue;
    var p := ResidueOf(s);
    var q := ResidueOf(s + d);
    if Residue(s) == Residue(s + d) { assert d == 65535 * (q - p); }
  }

  /** Over an odd length with a nonzero last byte the two differ. */
  lemma OddDiffers(pseudo: seq<Byte>, b: seq<Byte>)
    requires |pseudo| % 2 == 0 && |b| % 2 == 1
    ensures Internet(pseudo + AsSummed(b)) == Internet(pseudo + b) <==> Last(b) == 0
  {
    AsSummedTotal(b);
    OddEnd(pseudo, b);
    hide Finish, LittleSum, Internet, AsSummed, OddByte, LastByte, Last, OddLength;
    LittleSplit(pseudo, b);
    LittleSplit(pseudo, AsSummed(b));
    FinishMeans(pseudo + AsSummed(b));
    OddRight(pseudo + b, Last(b));
    OddCompare(LittleSum(pseudo + b), Last(b));
  }

  lemma OddEnd(pseudo: seq<Byte>, b: seq<Byte>)
    requires |pseudo| % 2 == 0 && |b| % 2 == 1
    ensures OddByte(b) == 256 * Last(b) && Last(b) < 256
    ensures Last(pseudo + b) == Last(b) && |pseudo + b| % 2 == 1
  {
  }

  /** What it should have added up. */
  lemma OddRight(all: seq<Byte>, last: nat)
    requires |all| % 2 == 1 && last == Last(all)
    ensures Internet(all) == Finish(LittleSum(all) + last)
  {
    hide Finish, LittleSum, OnesSum;
    PadZero(all);
    PadLittle(all, |all| - 1);
    FinishMeans(all + [0]);
  }

  lemma OddCompare(s: nat, last: nat)
    requires last < 256
    ensures Finish(s + 256 * last) == Finish(s + last) <==> last == 0
  {
    hide Residue;
    if last > 0 {
      var wrong, right := 256 * (s + 256 * last), 256 * (s + last);
      var k := ResidueOf(right);
      ResidueUnique(wrong + 255 * last, Residue(right), k + last);
      var _ := ResidueOf(wrong);
      ResidueMoves(wrong, 255 * last);
    }
  }

  /** The code gets the checksum right: an even length, or a last byte of zero. */
  predicate Summable(b: seq<Byte>) { |b| % 2 == 0 || Last(b) == 0 }

  /** Whatever even-length prefix the starting value stands for, and as long as the
      accumulator does not wrap, the code computes the Internet checksum of prefix and bytes
      if and only if the length is even or the last byte is zero. */
  lemma StartedIsInternet(pseudo: seq<Byte>, b: seq<Byte>)
    requires |pseudo| % 2 == 0 && NoWrap(pseudo, b)
    ensures Summed(LittleSum(pseudo), b) == Internet(pseudo + b) <==> Summable(b)
  {
    hide Summed, Internet, NoWrap, Last;
    SummedExactly(pseudo, b);
    if |b| % 2 == 1 { OddDiffers(pseudo, b); }
  }

  /** What the code sums instead: an odd last byte moved to the low half of its word. */
  function AsSummed(b: seq<Byte>): (r: seq<Byte>)
    ensures |r| % 2 == 0
  {
    if |b| % 2 == 0 then b else b[..|b| - 1] + [0, b[|b| - 1]]
  }

  /** For every length the code computes the Internet checksum of that. */
  lemma SummedExactly(pseudo: seq<Byte>, b: seq<Byte>)
    requires |pseudo| % 2 == 0 && NoWrap(pseudo, b)
    ensures Summed(LittleSum(pseudo), b) == Internet(pseudo + AsSummed(b))
  {
    AsSummedTotal(b);
    hide Finish, LittleSum, Internet, Wrap, OddByte, AsSummed;
    var moved := AsSummed(b);
    LittleSplit(pseudo, moved);
    WrapSmall(LittleSum(pseudo + moved));
    FinishMeans(pseudo + moved);
  }

  lemma AsSummedTotal(b: seq<Byte>)
    ensures LittleSum(AsSummed(b)) == LittleSum(b) + OddByte(b)
  {
    if |b| % 2 == 1 {
      var n := |b| - 1;
      var two: seq<Byte> := [0, b[n]];
      LittleEnds(b, n);
      LittleSplit(b[..n], two);
      assert two[2..] == [];
      assert LittleSum(two) == LittleWord(0, b[n]) == LastByte(b);
    }
  }

  lemma ChecksumIsInternet(b: seq<Byte>)
    requires |b| <= 131071
    ensures Summed(0, b) == Internet(b) <==> Summable(b)
  {
    ShortNoWrap([], b);
    StartedIsInternet([], b);
    assert [] + b == b;
  }

  /** A single byte is summed wrongly. */
  lemma WrongAtOneByte()
    ensures Summed(0, [1]) != Internet([1])
  {
    ChecksumIsInternet([1]);
  }

  // ----- a field that makes the whole check -----

  lemma {:induction false} BigSplit(a: seq<Byte>, b: seq<Byte>)
    requires |a| % 2 == 0
    ensures BigSum(a + b) == BigSum(a) + BigSum(b)
    decreases |a|
  {
    if a == [] {
      assert a + b == b;
    } else {
      BigSplit(a[2..], b);
      assert (a + b)[2..] == a[2..] + b;
    }
  }

  function BigBytes(x: nat): seq<Byte> { [x / 256 % 256, x % 256] }

  /** The number that bytes stand for, most significant first. */
  function Value(b: seq<Byte>): nat {
    if b == [] then 0 else Shifted(Value(b[..|b| - 1]), b[|b| - 1])
  }

  function Shifted(q: nat, d: Byte): nat { q * 256 + d }

  /** The low `n` bytes of a number, most significant first. */
  function Digits(x: nat, n: nat): (b: seq<Byte>)
    ensures |b| == n
  {
    if n == 0 then [] else Digits(x / 256, n - 1) + [x % 256]
  }

  lemma {:induction false} ValueOfDigits(x: nat, n: nat)
    requires x < Power256(n)
    ensures Value(Digits(x, n)) == x
  {
    if n > 0 {
      ValueOfDigits(x / 256, n - 1);
      assert Digits(x, n)[..n - 1] == Digits(x / 256, n - 1);
    }
  }

  lemma {:induction false} DigitsOfValue(b: seq<Byte>)
    ensures Digits(Value(b), |b|) == b
  {
    if b != [] {
      var front, last := b[..|b| - 1], b[|b| - 1];
      DigitsOfValue(front);
      LastDigit(Value(front), last);
    }
  }

  lemma LastDigit(q: nat, d: Byte)
    ensures Shifted(q, d) / 256 == q && Shifted(q, d) % 256 == d
  {
  }

  lemma FourDigits()
    ensures Power256(4) == WORD32
  {
  }

  lemma Truncated(x: nat)
    ensures BigBytes(x % 0x1_0000) == BigBytes(x)
  {
    var q, r := x / 0x1_0000, x % 0x1_0000;
    assert x == 256 * (256 * q + r / 256) + r % 256;
    assert x / 256 == 256 * q + r / 256 && x % 256 == r % 256;
  }

  lemma InternetRange(b: seq<Byte>)
    ensures Internet(b) == 65535 - Residue(BigSum(b)) && Internet(b) <= 65535
  {
    OnesIsResidue(b);
  }

  /** Putting the checksum of the bytes in a field that was zero makes the checksum zero. */
  lemma Checks(a: seq<Byte>, z: seq<Byte>)
    requires |a| % 2 == 0 && BigSum(a + [0, 0] + z) > 0
    ensures Internet(a + BigBytes(Internet(a + [0, 0] + z)) + z) == 0
  {
    hide Residue, Internet, BigSum, BigBytes;
    var zeroed := a + [0, 0] + z;
    InternetRange(zeroed);
    var c := Internet(zeroed);
    var field: seq<Byte> := BigBytes(c);
    var zero: seq<Byte> := [0, 0];
    assert |field| == 2 by { FieldSum(c); }
    BigSplit(a + zero, z);
    BigSplit(a, zero);
    BigSplit(a + field, z);
    BigSplit(a, field);
    assert BigSum(zero) == 0 && BigSum(field) == c by { FieldSum(c); }
    var s := BigSum(zeroed);
    var k := ResidueOf(s);
    ResidueUnique(s + c, 65535, k);
    InternetRange(a + field + z);
  }

  lemma FieldSum(c: nat)
    requires c <= 65535
    ensures |BigBytes(c)| == 2 && BigSum(BigBytes(c)) == c && BigSum([0, 0]) == 0
  {
    assert BigBytes(c)[2..] == [];
    var zero: seq<Byte> := [0, 0];
    assert zero[2..] == [];
  }
}
