/** A 64-bit page-table word, split into the bit fields that the walk, the
    mapper and the unmapper look at, and its little-endian bytes.

    Physical memory holds 64-bit words. Every word is kept here as its fields;
    `Encode` and `Decode` show that the fields and the 64-bit number are the same
    thing, and the `...Bits` lemmas tie each field operation to the mask-and-shift
    expression of the source, written with `/` and `%` by powers of two. */
module PageWords {
  import opened Arith

  const TWO40: int := 0x100_0000_0000
  const TWO48: int := 0x1_0000_0000_0000
  const TWO52: int := 0x10_0000_0000_0000
  const TWO62: int := 0x4000_0000_0000_0000
  const TWO63: int := 0x8000_0000_0000_0000
  const TWO64: int := 0x1_0000_0000_0000_0000

  /** Bit 0, bits 1..6, bit 7, bits 8..11, bits 12..51, bits 52..61, bits 62..63. */
  datatype Fields = Fields(present: bool, low: nat, large: bool, avail: nat, frame: nat, count: nat, high: nat)

  predicate Fits(w: Fields) {
    w.low < 64 && w.avail < 16 && w.frame < TWO40 && w.count < 1024 && w.high < 4
  }

  type Frame = f: nat | f < TWO40

  type Word = w: Fields | Fits(w) witness Fields(false, 0, false, 0, 0, 0, 0)

  const ZERO: Word := Fields(false, 0, false, 0, 0, 0, 0)

  function Bit(b: bool): nat { if b then 1 else 0 }

  /** The 64-bit number of a word. */
  function Encode(w: Word): nat {
    Bit(w.present) + 2 * w.low + 128 * Bit(w.large) + 256 * w.avail + 4096 * w.frame
    + TWO52 * w.count + TWO62 * w.high
  }

  /** The word of a 64-bit number. */
  function Decode(v: nat): Word {
    Fields(v % 2 == 1, v / 2 % 64, v / 128 % 2 == 1, v / 256 % 16, v / 4096 % TWO40, v / TWO52 % 1024, v / TWO62 % 4)
  }

  lemma EncodeFits(w: Word)
    ensures Encode(w) < TWO64
  {
  }

  /** Dividing by a power of two in one step or field by field. */
  lemma Shifts(v: nat)
    ensures v / 128 == v / 2 / 64 && v / 256 == v / 128 / 2 && v / 4096 == v / 256 / 16
    ensures v / TWO52 == v / 4096 / TWO40 && v / TWO62 == v / TWO52 / 1024
  {
  }

  /** Encoding loses nothing. */
  lemma DecodeEncode(w: Word)
    ensures Decode(Encode(w)) == w
  {
    var q5 := w.count + 1024 * w.high;
    var q4 := w.frame + TWO40 * q5;
    var q3 := w.avail + 16 * q4;
    var q2 := Bit(w.large) + 2 * q3;
    var q1 := w.low + 64 * q2;
    var v := Encode(w);
    Shifts(v);
    Digit(v, Bit(w.present), 2, q1);
    Digit(q1, w.low, 64, q2);
    Digit(q2, Bit(w.large), 2, q3);
    Digit(q3, w.avail, 16, q4);
    Digit(q4, w.frame, TWO40, q5);
    Digit(q5, w.count, 1024, w.high);
  }

  /** Every 64-bit number is the encoding of its decoding. */
  lemma EncodeDecode(v: nat)
    requires v < TWO64
    ensures Encode(Decode(v)) == v
  {
    Shifts(v);
    var q1 := v / 2;
    var q2 := v / 128;
    var q3 := v / 256;
    var q4 := v / 4096;
    var q5 := v / TWO52;
    var q6 := v / TWO62;
    assert q6 % 4 == q6;
    assert q5 == q5 % 1024 + 1024 * q6;
    assert q4 == q4 % TWO40 + TWO40 * q5;
    assert q3 == q3 % 16 + 16 * q4;
    assert q2 == q2 % 2 + 2 * q3;
    assert q1 == q1 % 64 + 64 * q2;
  }

  /** The word that points at the table in frame `f` with `c` live entries:
      present, writable, user. */
  function TableWord(f: Frame, c: nat): Word
    requires c < 1024
  {
    Fields(true, 3, false, 0, f, c, 0)
  }

  /** The word of a fresh page in frame `f`. */
  function LeafWord(f: Frame, write: bool, exec: bool, large: bool): Word {
    Fields(true, Bit(write), large, 0, f, 0, if exec then 0 else 2)
  }

  /** What the walk reads off a 64-bit entry: `ent & 1`, `ent & (1 << 7)`,
      `ent & 0xffffffffff000`, `(ent >> 52) & 0x3ff`. */
  lemma FieldBits(w: Word)
    ensures w.present <==> Encode(w) % 2 == 1
    ensures w.large <==> Encode(w) / 128 % 2 == 1
    ensures w.frame * 4096 == Encode(w) / 4096 % TWO40 * 4096
    ensures w.count == Encode(w) / TWO52 % 1024
  {
    DecodeEncode(w);
  }

  /** `(ent & !0x3ff0_0000_0000_0000) | (c << 52)` replaces the count and nothing else. */
  lemma CountBits(v: nat, c: nat)
    requires v < TWO64 && c < 1024
    ensures Encode(Decode(v).(count := c)) == v - v / TWO52 % 1024 * TWO52 + c * TWO52
  {
    EncodeDecode(v);
  }

  /** The link to a fresh table, and the entry of a fresh page, as sums of their flags. */
  lemma NewWordBits(f: Frame, write: bool, exec: bool, large: bool)
    ensures Encode(TableWord(f, 0)) == f * 4096 + 4 + 2 + 1
    ensures Encode(LeafWord(f, write, exec, large))
         == f * 4096 + 1 + (if write then 2 else 0) + (if exec then 0 else TWO63) + (if large then 128 else 0)
  {
  }

  // ----- memory cells -----

  type byte = b: int | 0 <= b < 256

  /** Eight bytes of memory. A cell holds one 64-bit value; the constructor only
      records whether it was last written as a table word or byte by byte. */
  datatype Cell = Entry(w: Word) | Raw(bytes: seq<byte>)

  predicate CellOk(c: Cell) { c.Raw? ==> |c.bytes| == 8 }

  type MemCell = c: Cell | CellOk(c) witness Entry(ZERO)

  function Pair(low: int, high: int): int { low + 256 * high }

  /** The number a run of bytes stands for, lowest byte first. */
  function Number(b: seq<byte>): nat {
    if b == [] then 0 else Pair(b[0], Number(b[1..]))
  }

  /** The low `n` bytes of a number, lowest first. */
  function BytesOf(v: nat, n: nat): (b: seq<byte>)
    ensures |b| == n
  {
    if n == 0 then [] else [v % 256] + BytesOf(v / 256, n - 1)
  }

  /** The word a cell holds. */
  function AsWord(c: MemCell): Word {
    match c
    case Entry(w) => w
    case Raw(b) => Decode(Number(b))
  }

  /** The bytes a cell holds. */
  function AsBytes(c: MemCell): (b: seq<byte>)
    ensures |b| == 8
  {
    match c
    case Entry(w) => BytesOf(Encode(w), 8)
    case Raw(b) => b
  }

  lemma Power256Eight()
    ensures Power256(8) == TWO64
  {
    assert Power256(4) == 0x1_0000_0000;
    assert Power256(6) == 0x1_0000_0000_0000;
  }

  lemma NumberBound(b: seq<byte>)
    ensures Number(b) < Power256(|b|)
  {
    if b != [] { NumberBound(b[1..]); }
  }

  lemma NumberBytesOf(v: nat, n: nat)
    requires v < Power256(n)
    ensures Number(BytesOf(v, n)) == v
  {
    if n > 0 {
      NumberBytesOf(v / 256, n - 1);
      assert BytesOf(v, n)[1..] == BytesOf(v / 256, n - 1);
    }
  }

  lemma BytesOfNumber(b: seq<byte>)
    ensures BytesOf(Number(b), |b|) == b
  {
    if b != [] {
      BytesOfNumber(b[1..]);
      assert Number(b) / 256 == Number(b[1..]) && Number(b) % 256 == b[0];
    }
  }

  /** Written as a table word or byte by byte, a cell is one 64-bit number: its bytes and its
      word determine each other. */
  lemma CellNumber(c: MemCell)
    ensures Number(AsBytes(c)) == Encode(AsWord(c)) && BytesOf(Encode(AsWord(c)), 8) == AsBytes(c)
    ensures Decode(Number(AsBytes(c))) == AsWord(c)
  {
    Power256Eight();
    match c
    case Entry(w) =>
      EncodeFits(w);
      NumberBytesOf(Encode(w), 8);
      DecodeEncode(w);
    case Raw(b) =>
      NumberBound(b);
      EncodeDecode(Number(b));
      BytesOfNumber(b);
  }
}
