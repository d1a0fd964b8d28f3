/**
 * Byte-level vocabulary shared by both Nortek readers: bytes and 16-bit
 * words, the two byte orders, what a read at a file offset returns, and
 * the word sums that the record checksum and the resynchronising scan
 * are built from.
 */
module Wire {

  type byte = b: int | 0 <= b < 256
  type uint16 = w: int | 0 <= w < 0x1_0000

  datatype Option<T> = None | Some(value: T)

  /** Byte order of every multi-byte field of a file ('<' or '>' in `struct` terms). */
  datatype Endian = Little | Big

  /** The sync byte that opens every record. */
  const SYNC: byte := 165

  /**
   * The bytes `f.read(n)` hands back at offset `pos`: `n` of them when the
   * file has that many left, fewer at the end, none past the end.
   */
  function Avail(file: seq<byte>, pos: nat, n: nat): (r: seq<byte>)
    ensures |r| <= n
    ensures |r| == n <==> (n == 0 || pos + n <= |file|)
    ensures pos < |file| ==> |r| == (if pos + n <= |file| then n else |file| - pos)
    ensures pos >= |file| ==> r == []
    ensures forall i :: 0 <= i < |r| ==> pos + i < |file| && r[i] == file[pos + i]
  {
    if pos >= |file| then [] else file[pos .. if pos + n <= |file| then pos + n else |file|]
  }

  /** The 16-bit unsigned value of two consecutive bytes in byte order `e`. */
  function Word(b0: byte, b1: byte, e: Endian): (w: uint16)
    ensures e == Little ==> w % 256 == b0 && w / 256 == b1
    ensures e == Big ==> w / 256 == b0 && w % 256 == b1
  {
    if e == Little then b0 + 256 * b1 else 256 * b0 + b1
  }

  /** The two bytes that `Word` reads back as `w`. */
  function WordBytes(w: uint16, e: Endian): (s: seq<byte>)
    ensures |s| == 2 && Word(s[0], s[1], e) == w
  {
    if e == Little then [w % 256, w / 256] else [w / 256, w % 256]
  }

  /** Reading two bytes as a word and writing the word back gives the same two bytes. */
  lemma WordBytesOfWord(b0: byte, b1: byte, e: Endian)
    ensures WordBytes(Word(b0, b1, e), e) == [b0, b1]
  {
  }

  /** The unsigned 16-bit field starting at offset `i` ('H'). */
  function U16At(s: seq<byte>, i: nat, e: Endian): uint16
    requires i + 2 <= |s|
  {
    Word(s[i], s[i + 1], e)
  }

  /** Two's-complement reading of a 16-bit word ('h'). */
  function Signed16(w: uint16): (v: int)
    ensures -0x8000 <= v < 0x8000
    ensures v % 0x1_0000 == w
  {
    if w < 0x8000 then w else w - 0x1_0000
  }

  /** The two's-complement 16-bit pattern of `v`. */
  function Unsigned16(v: int): (w: uint16)
    requires -0x8000 <= v < 0x8000
    ensures Signed16(w) == v
  {
    if v >= 0 then v else v + 0x1_0000
  }

  /** Two's complement reading and writing are inverse on 16-bit words. */
  lemma Unsigned16OfSigned16(w: uint16)
    ensures Unsigned16(Signed16(w)) == w
  {
  }

  /** The signed 16-bit field starting at offset `i` ('h'). */
  function I16At(s: seq<byte>, i: nat, e: Endian): int
    requires i + 2 <= |s|
  {
    Signed16(U16At(s, i, e))
  }

  /** `s` read as consecutive unsigned 16-bit words (`struct.unpack(e + k * 'H', s)`). */
  function Words(s: seq<byte>, e: Endian): (ws: seq<uint16>)
    requires |s| % 2 == 0
    ensures |ws| == |s| / 2
    ensures forall k :: 0 <= k < |ws| ==> ws[k] == Word(s[2 * k], s[2 * k + 1], e)
    decreases |s|
  {
    if s == [] then [] else [Word(s[0], s[1], e)] + Words(s[2..], e)
  }

  function Sum(ws: seq<int>): int
    decreases |ws|
  {
    if ws == [] then 0 else Sum(ws[..|ws| - 1]) + ws[|ws| - 1]
  }

  lemma {:induction false} SumAppend(a: seq<int>, b: seq<int>)
    ensures Sum(a + b) == Sum(a) + Sum(b)
    decreases |b|
  {
    if b == [] {
      assert a + b == a;
    } else {
      assert (a + b)[..|a + b| - 1] == a + b[..|b| - 1];
      SumAppend(a, b[..|b| - 1]);
    }
  }

  lemma {:induction false} SumNonNegative(ws: seq<uint16>)
    ensures 0 <= Sum(ws) <= 0xFFFF * |ws|
    decreases |ws|
  {
    if ws != [] {
      SumNonNegative(ws[..|ws| - 1]);
    }
  }

  lemma {:induction false} WordsAppend(a: seq<byte>, b: seq<byte>, e: Endian)
    requires |a| % 2 == 0 && |b| % 2 == 0
    ensures Words(a + b, e) == Words(a, e) + Words(b, e)
  {
    var l, r := Words(a + b, e), Words(a, e) + Words(b, e);
    assert |l| == |r|;
    forall k | 0 <= k < |l| ensures l[k] == r[k] {
      if k < |a| / 2 {
        assert (a + b)[2 * k] == a[2 * k] && (a + b)[2 * k + 1] == a[2 * k + 1];
      } else {
        var j := k - |a| / 2;
        assert (a + b)[2 * k] == b[2 * j] && (a + b)[2 * k + 1] == b[2 * j + 1];
      }
    }
  }
}
