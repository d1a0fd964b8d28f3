/**
 * The pieces of Python and numpy behaviour the readers lean on: the
 * exceptions a step can end in, numpy's indexing of a 1-d column by a
 * possibly negative index, the bounds of a `[:stop]` slice, the strict
 * UTF-8 check behind `bytes.decode('utf-8')`, and the cut at the first NUL
 * done by `partition(b'\x00')[0]`.
 */
module Py {
  import opened Wire

  /** The exceptions the modelled code can raise (or that a loop can never end, `Diverges`). */
  datatype Exc =
    | EofError            // `EOFError` from the checked read of the newer reader
    | StructError         // `struct.error`: `unpack` given too few or too many bytes
    | TypeError           // `TypeError`, e.g. `int(None, 0)` or a float repeat count
    | ValueError          // `ValueError` from `datetime(...)` or a negative array size
    | IndexError          // an index outside a list or a numpy column
    | KeyError            // a missing dictionary key
    | AttributeError      // a missing attribute
    | UnicodeDecodeError  // malformed UTF-8 in a decoded text field
    | ZeroDivisionError   // division by zero
    | UnboundLocalError   // use of a local that was never assigned
    | WrongFileType       // the byte order could not be established
    | NotNortek           // the mandatory header records are missing
    | CheckSumError       // the older reader's checksum test fired
    | Diverges            // the loop revisits an offset and so never ends

  /** A Python call either returns a value or raises. */
  datatype Res<T> = Ok(value: T) | Raised(exc: Exc)

  /** The reader state a call leaves behind, and how the call ended. */
  datatype Out<S, T> = Out(st: S, res: Res<T>)

  /**
   * The element numpy reaches with index `i` in a column of length `n`:
   * negative indices count from the end; anything else raises `IndexError`.
   */
  function NpIndex(i: int, n: nat): (r: Option<nat>)
    ensures r.Some? <==> -(n as int) <= i < n
    ensures r.Some? ==> r.value < n
    ensures r.Some? && i >= 0 ==> r.value == i
    ensures r.Some? && i < 0 ==> r.value == n + i
  {
    if -(n as int) <= i < n then Some(if i < 0 then n + i else i) else None
  }

  /** `col[i] = v` on a numpy column: the updated column, or `None` when the index raises. */
  function NpSet<T>(col: seq<T>, i: int, v: T): (r: Option<seq<T>>)
    ensures r.Some? <==> NpIndex(i, |col|).Some?
    ensures r.Some? ==> |r.value| == |col| && r.value[NpIndex(i, |col|).value] == v
    ensures r.Some? ==> forall j :: 0 <= j < |col| && j != NpIndex(i, |col|).value ==> r.value[j] == col[j]
  {
    match NpIndex(i, |col|)
    case None => None
    case Some(k) => Some(col[k := v])
  }

  /** Length of `a[:stop]` (equivalently `a[slice(0, stop)]`) for a column of length `n`. */
  function SliceStop(stop: int, n: nat): (r: nat)
    ensures r <= n
  {
    if stop < 0 then (if n + stop < 0 then 0 else n + stop)
    else if stop > n then n else stop
  }

  /**
   * The slice keeps exactly the leading elements below `stop`, counted from
   * the end when `stop` is negative.
   */
  lemma SliceStopKeeps(stop: int, n: nat, j: nat)
    requires j < n
    ensures j < SliceStop(stop, n) <==> (stop >= 0 && j < stop) || (stop < 0 && j < n + stop)
  {
  }

  /** A non-negative `stop` within the column keeps exactly `stop` elements. */
  lemma SliceStopInRange(stop: int, n: nat)
    requires 0 <= stop <= n
    ensures SliceStop(stop, n) == stop
  {
  }

  predicate Cont(b: byte) { 0x80 <= b <= 0xBF }

  /** Length of the well-formed UTF-8 sequence that starts `s`, or 0 if none does. */
  function Utf8SeqLen(s: seq<byte>): (k: nat)
    ensures k <= 4 && k <= |s|
    ensures |s| > 0 && s[0] < 0x80 ==> k == 1
  {
    if |s| == 0 then 0
    else var b := s[0];
    if b < 0x80 then 1
    else if 0xC2 <= b <= 0xDF then (if |s| >= 2 && Cont(s[1]) then 2 else 0)
    else if 0xE0 <= b <= 0xEF then
      (if |s| >= 3 && Cont(s[2])
          && (if b == 0xE0 then 0xA0 <= s[1] <= 0xBF
              else if b == 0xED then 0x80 <= s[1] <= 0x9F
              else Cont(s[1]))
       then 3 else 0)
    else if 0xF0 <= b <= 0xF4 then
      (if |s| >= 4 && Cont(s[2]) && Cont(s[3])
          && (if b == 0xF0 then 0x90 <= s[1] <= 0xBF
              else if b == 0xF4 then 0x80 <= s[1] <= 0x8F
              else Cont(s[1]))
       then 4 else 0)
    else 0
  }

  /**
   * `s.decode('utf-8')` succeeds: `s` splits into well-formed sequences
   * (the strict decoder refuses overlong forms, surrogates and code points
   * above U+10FFFF, as the table of well-formed sequences in section 3.9 of
   * the Unicode Standard does).
   */
  predicate ValidUtf8(s: seq<byte>)
    decreases |s|
  {
    s == [] || (Utf8SeqLen(s) > 0 && ValidUtf8(s[Utf8SeqLen(s)..]))
  }

  /** The UTF-8 encoding of a Unicode scalar value. */
  function EncodeCodePoint(cp: nat): (s: seq<byte>)
    requires cp <= 0x10FFFF && !(0xD800 <= cp <= 0xDFFF)
    ensures 1 <= |s| <= 4
  {
    if cp < 0x80 then [cp]
    else if cp < 0x800 then [0xC0 + cp / 64, 0x80 + cp % 64]
    else if cp < 0x10000 then [0xE0 + cp / 4096, 0x80 + (cp / 64) % 64, 0x80 + cp % 64]
    else [0xF0 + cp / 262144, 0x80 + (cp / 4096) % 64, 0x80 + (cp / 64) % 64, 0x80 + cp % 64]
  }

  /** Every scalar value's encoding is one well-formed sequence, so the strict decoder accepts it. */
  lemma EncodeCodePointValid(cp: nat)
    requires cp <= 0x10FFFF && !(0xD800 <= cp <= 0xDFFF)
    ensures Utf8SeqLen(EncodeCodePoint(cp)) == |EncodeCodePoint(cp)|
    ensures ValidUtf8(EncodeCodePoint(cp))
  {
    var s := EncodeCodePoint(cp);
    assert s[Utf8SeqLen(s)..] == [];
  }

  /** Well-formed text stays well-formed when more well-formed text follows it. */
  lemma {:induction false} ValidUtf8Append(a: seq<byte>, b: seq<byte>)
    requires ValidUtf8(a) && ValidUtf8(b)
    ensures ValidUtf8(a + b)
    decreases |a|
  {
    if a != [] {
      var k := Utf8SeqLen(a);
      assert (a + b)[..k] == a[..k];
      Utf8SeqLenPrefix(a, a + b);
      assert (a + b)[k..] == a[k..] + b;
      ValidUtf8Append(a[k..], b);
    } else {
      assert a + b == b;
    }
  }

  /** The length of the leading sequence only depends on the bytes it spans. */
  lemma Utf8SeqLenPrefix(a: seq<byte>, t: seq<byte>)
    requires Utf8SeqLen(a) > 0 && |a| <= |t| && t[..|a|] == a
    ensures Utf8SeqLen(t) == Utf8SeqLen(a)
  {
    assert forall i :: 0 <= i < |a| ==> t[i] == a[i] by {
      forall i | 0 <= i < |a| ensures t[i] == a[i] {
        assert t[..|a|][i] == t[i];
      }
    }
  }

  /** Text made of ASCII bytes only always decodes. */
  lemma {:induction false} AsciiIsValid(s: seq<byte>)
    requires forall i :: 0 <= i < |s| ==> s[i] < 0x80
    ensures ValidUtf8(s)
    decreases |s|
  {
    if s != [] {
      AsciiIsValid(s[1..]);
    }
  }

  /** `s.partition(b'\x00')[0]`: the bytes before the first NUL, or all of `s`. */
  function BeforeNul(s: seq<byte>): (r: seq<byte>)
    ensures |r| <= |s| && r == s[..|r|]
    ensures forall i :: 0 <= i < |r| ==> r[i] != 0
    ensures |r| < |s| ==> s[|r|] == 0
    decreases |s|
  {
    if s == [] || s[0] == 0 then [] else [s[0]] + BeforeNul(s[1..])
  }

  /** Cutting at the first NUL is idempotent: the result holds no NUL of its own. */
  lemma BeforeNulIdempotent(s: seq<byte>)
    ensures BeforeNul(BeforeNul(s)) == BeforeNul(s)
  {
    var r := BeforeNul(s);
    NoNulKept(r);
  }

  lemma {:induction false} NoNulKept(r: seq<byte>)
    requires forall i :: 0 <= i < |r| ==> r[i] != 0
    ensures BeforeNul(r) == r
    decreases |r|
  {
    if r != [] {
      NoNulKept(r[1..]);
    }
  }
}
