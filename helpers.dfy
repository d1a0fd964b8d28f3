/**
 * The small pure helpers of the Nortek readers: BCD decoding, the byte
 * selectors used by the resynchronising scan, the bit-array expansion of
 * configuration registers, two-digit year completion and the BCD clock
 * fields of data records.
 */
module Helpers {
  import opened Wire

  /**
   * `_bcd2char` / `bcd2char`: the input is first clamped to 153 (0x99), then
   * read as high nibble * 10 + low nibble.
   */
  function Bcd2Char(b: byte): (r: nat)
    ensures r <= 99
  {
    var x := if b < 153 then b else 153;
    x % 16 + 10 * (x / 16)
  }

  /** The BCD byte of a two-digit number. */
  function EncodeBcd(n: nat): (b: byte)
    requires n <= 99
    ensures b / 16 <= 9 && b % 16 <= 9
  {
    16 * (n / 10) + n % 10
  }

  /** A well-formed BCD byte (both nibbles at most 9) decodes to its two digits. */
  lemma Bcd2CharDigits(hi: nat, lo: nat)
    requires hi <= 9 && lo <= 9
    ensures Bcd2Char(16 * hi + lo) == 10 * hi + lo
  {
    var b := 16 * hi + lo;
    assert b <= 153;
    assert b / 16 == hi && b % 16 == lo;
  }

  /** Decoding undoes encoding for every two-digit number. */
  lemma Bcd2CharRoundTrip(n: nat)
    requires n <= 99
    ensures Bcd2Char(EncodeBcd(n)) == n
  {
    Bcd2CharDigits(n / 10, n % 10);
  }

  /** Every byte above the clamp decodes like 0x99. */
  lemma Bcd2CharClamps(b: byte)
    requires b >= 153
    ensures Bcd2Char(b) == 99
  {
  }

  /** `_bitshift8` / `bitshift8`: the high byte of a 16-bit word. */
  function Bitshift8(w: uint16): byte
  {
    w / 256
  }

  /** `np.uint8` applied to a 16-bit word: its low byte. */
  function Low8(w: uint16): byte
  {
    w % 256
  }

  /** The high and low byte split a word, and put back in either byte order they give it again. */
  lemma SplitWord(w: uint16)
    ensures Bitshift8(w) * 256 + Low8(w) == w
    ensures Word(Bitshift8(w), Low8(w), Big) == w && Word(Low8(w), Bitshift8(w), Little) == w
  {
  }

  /**
   * The byte `findnext` compares with the sync byte: `np.uint8` of the word
   * for little-endian files, `_bitshift8` for big-endian ones.
   */
  function SyncProbe(w: uint16, e: Endian): byte
  {
    if e == Little then Low8(w) else Bitshift8(w)
  }

  /** The byte `findnext` returns as the type code: the other selector. */
  function CodeProbe(w: uint16, e: Endian): byte
  {
    if e == Little then Bitshift8(w) else Low8(w)
  }

  /** Whatever the byte order, the probes pick the first and the second byte in the file. */
  lemma ProbesPickFileOrder(b0: byte, b1: byte, e: Endian)
    ensures SyncProbe(Word(b0, b1, e), e) == b0
    ensures CodeProbe(Word(b0, b1, e), e) == b1
  {
  }

  function Pow2(i: nat): (p: nat)
    ensures p >= 1
  {
    if i == 0 then 1 else 2 * Pow2(i - 1)
  }

  /** Bit `i` of `v`. */
  predicate Bit(v: nat, i: nat)
  {
    (v / Pow2(i)) % 2 == 1
  }

  /** `int2binarray(val, n)`: `n` flags, flag `i` being bit `i` of `val`. */
  method Int2BinArray(val: nat, n: nat) returns (out: array<bool>)
    ensures out.Length == n
    ensures forall i :: 0 <= i < n ==> out[i] == Bit(val, i)
  {
    out := new bool[n](_ => false);
    var idx := 0;
    while idx < n
      invariant 0 <= idx <= n
      invariant forall i :: 0 <= i < idx ==> out[i] == Bit(val, i)
    {
      out[idx] := Bit(val, idx);
      idx := idx + 1;
    }
  }

  /** The number whose bit `i` is `flags[i]`. */
  function FromFlags(flags: seq<bool>): nat
    decreases |flags|
  {
    if flags == [] then 0 else (if flags[0] then 1 else 0) + 2 * FromFlags(flags[1..])
  }

  /** The flags of `int2binarray(v, n)` keep exactly the low `n` bits of `v`. */
  lemma {:induction false} FlagsKeepLowBits(v: nat, flags: seq<bool>)
    requires forall i :: 0 <= i < |flags| ==> flags[i] == Bit(v, i)
    ensures FromFlags(flags) == v % Pow2(|flags|)
    decreases |flags|
  {
    if flags != [] {
      var rest := flags[1..];
      forall i | 0 <= i < |rest| ensures rest[i] == Bit(v / 2, i) {
        DivDiv(v, i);
      }
      FlagsKeepLowBits(v / 2, rest);
      ModPow2Step(v, |rest|);
    }
  }

  /** Quotient and remainder are determined by any decomposition with a remainder in range. */
  lemma DivModUnique(v: nat, d: nat, q: nat, r: nat)
    requires d > 0 && v == d * q + r && r < d
    ensures v / d == q && v % d == r
  {
    var q', r' := v / d, v % d;
    assert v == d * q' + r' && 0 <= r' < d;
    assert d * (q' - q) == r - r';
    MulAtLeast(d, q' - q);
    MulAtLeast(d, q - q');
  }

  lemma MulAtLeast(d: nat, k: int)
    ensures k >= 1 ==> d * k >= d
  {
    if k >= 1 {
      assert d * k == d + d * (k - 1);
    }
  }

  lemma DivDiv(v: nat, i: nat)
    ensures v / Pow2(i + 1) == (v / 2) / Pow2(i)
  {
    var p := Pow2(i);
    assert Pow2(i + 1) == 2 * p;
    var q := (v / 2) / p;
    var r2 := (v / 2) % p;
    assert v / 2 == p * q + r2;
    assert v == 2 * (v / 2) + v % 2;
    DoubleMul(p, q);
    assert v == (2 * p) * q + (2 * r2 + v % 2);
    DivModUnique(v, 2 * p, q, 2 * r2 + v % 2);
  }

  lemma ModPow2Step(v: nat, k: nat)
    ensures v % Pow2(k + 1) == v % 2 + 2 * ((v / 2) % Pow2(k))
  {
    var p := Pow2(k);
    assert Pow2(k + 1) == 2 * p;
    var q := (v / 2) / p;
    var r := (v / 2) % p;
    assert v / 2 == p * q + r;
    assert v == 2 * (v / 2) + v % 2;
    DoubleMul(p, q);
    assert v == (2 * p) * q + (v % 2 + 2 * r);
    DivModUnique(v, 2 * p, q, v % 2 + 2 * r);
  }

  lemma DoubleMul(p: nat, q: nat)
    ensures (2 * p) * q == 2 * (p * q)
  {
  }

  /** `fullyear`: two-digit years 0..89 are 20xx, 90..100 are 19xx; larger years are left alone. */
  function FullYear(year: int): (r: int)
    ensures year > 100 ==> r == year
    ensures 0 <= year < 90 ==> 2000 <= r < 2090 && r - 2000 == year
    ensures 90 <= year <= 100 ==> 1990 <= r <= 2000 && r - 1900 == year
  {
    if year > 100 then year else year + 1900 + (if year < 90 then 100 else 0)
  }

  /** A two-digit year keeps its last two digits and is completed into 1990..2089. */
  lemma FullYearKeepsDigits(year: nat)
    requires year <= 99
    ensures FullYear(year) % 100 == year
    ensures 1990 <= FullYear(year) <= 2089
  {
  }

  /** The clock of a data record: six BCD bytes in the order minute, second, day, hour, year, month. */
  datatype Stamp = Stamp(year: int, month: nat, day: nat, hour: nat, minute: nat, second: nat)

  /**
   * `rd_time` without the final conversion to a timestamp: each BCD byte
   * decoded, the year completed by `fullyear` when `completeYear` holds.
   */
  function DecodeStamp(b: seq<byte>, completeYear: bool): (t: Stamp)
    requires |b| >= 6
    ensures t.minute <= 99 && t.second <= 99 && t.day <= 99 && t.hour <= 99 && t.month <= 99
    ensures completeYear ==> 1990 <= t.year <= 2089
    ensures !completeYear ==> 0 <= t.year <= 99
  {
    var y := Bcd2Char(b[4]);
    Stamp(if completeYear then FullYear(y) else y,
          Bcd2Char(b[5]), Bcd2Char(b[2]), Bcd2Char(b[3]), Bcd2Char(b[0]), Bcd2Char(b[1]))
  }

  /** The BCD bytes of a stamp with two-digit fields, in record order. */
  function EncodeStamp(t: Stamp): (b: seq<byte>)
    requires 0 <= t.year <= 99 && t.month <= 99 && t.day <= 99
    requires t.hour <= 99 && t.minute <= 99 && t.second <= 99
    ensures |b| == 6
  {
    [EncodeBcd(t.minute), EncodeBcd(t.second), EncodeBcd(t.day),
     EncodeBcd(t.hour), EncodeBcd(t.year), EncodeBcd(t.month)]
  }

  /** The clock fields survive a round trip through their BCD bytes. */
  lemma StampRoundTrip(t: Stamp)
    requires 0 <= t.year <= 99 && t.month <= 99 && t.day <= 99
    requires t.hour <= 99 && t.minute <= 99 && t.second <= 99
    ensures DecodeStamp(EncodeStamp(t), false) == t
    ensures DecodeStamp(EncodeStamp(t), true) == t.(year := FullYear(t.year))
  {
    Bcd2CharRoundTrip(t.year);
    Bcd2CharRoundTrip(t.month);
    Bcd2CharRoundTrip(t.day);
    Bcd2CharRoundTrip(t.hour);
    Bcd2CharRoundTrip(t.minute);
    Bcd2CharRoundTrip(t.second);
  }

  predicate IsLeap(year: int)
  {
    year % 4 == 0 && (year % 100 != 0 || year % 400 == 0)
  }

  /** Days in `month` (1..12) of `year` in the proleptic Gregorian calendar used by `datetime`. */
  function DaysInMonth(year: int, month: nat): (d: nat)
    requires 1 <= month <= 12
    ensures 28 <= d <= 31
    ensures month == 2 ==> (d == 29 <==> IsLeap(year))
  {
    if month == 2 then (if IsLeap(year) then 29 else 28)
    else if month == 4 || month == 6 || month == 9 || month == 11 then 30
    else 31
  }

  /** `datetime(year, month, day, hour, minute, second)` accepts these fields. */
  predicate ValidStamp(t: Stamp)
  {
    && 1 <= t.year <= 9999 && 1 <= t.month <= 12
    && 1 <= t.day <= DaysInMonth(t.year, t.month)
    && t.hour < 24 && t.minute < 60 && t.second < 60
  }

  /**
   * A clock written from a calendar date with a two-digit year decodes,
   * with the year completed, to fields `datetime` accepts.
   */
  lemma EncodedDateIsValid(t: Stamp)
    requires 0 <= t.year <= 99 && 1 <= t.month <= 12 && t.hour < 24 && t.minute < 60 && t.second < 60
    requires 1 <= t.day <= DaysInMonth(FullYear(t.year), t.month)
    ensures ValidStamp(DecodeStamp(EncodeStamp(t), true))
  {
    StampRoundTrip(t);
  }
}
