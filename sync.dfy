/**
 * The frame synchroniser's scan (`findnext` in both readers): read 16-bit
 * words one after another from the current offset until a word whose first
 * byte in the file is the sync byte is found, optionally only where the
 * word before it is the running checksum of everything scanned so far.
 */
module Sync {
  import opened Wire
  import opened Helpers
  import Checksum

  datatype ScanResult =
    | Found(at: nat, code: byte)  // offset of the sync word, and the type code after it
    | Exhausted(end: nat)         // the file ran out; offset left behind by the short read

  /** What remains of the file from `pos`, as a termination measure. */
  function Remaining(file: seq<byte>, pos: nat): nat
  {
    if pos <= |file| then |file| - pos else 0
  }

  /** Offset left after a read that runs past the end of the file. */
  function EndAfterShortRead(file: seq<byte>, pos: nat): nat
  {
    if pos < |file| then |file| else pos
  }

  /**
   * The `while True` loop of `findnext` from offset `pos`, with the running
   * `sum` (a `uint16`) and `cs` (the previous word). A word is accepted when
   * its sync probe is 165 and, if `doCs`, the previous word equals `sum`.
   */
  function Scan(file: seq<byte>, e: Endian, pos: nat, sum: uint16, cs: uint16, doCs: bool): (r: ScanResult)
    ensures r.Found? ==> pos <= r.at && r.at + 2 <= |file| && (r.at - pos) % 2 == 0
    ensures r.Found? && doCs && cs != sum ==> r.at >= pos + 2
    ensures r.Exhausted? ==> r.end == EndAfterShortRead(file, pos)
    decreases Remaining(file, pos)
  {
    if pos + 2 > |file| then Exhausted(EndAfterShortRead(file, pos))
    else
      var val := Word(file[pos], file[pos + 1], e);
      if SyncProbe(val, e) == SYNC && (!doCs || cs == sum) then Found(pos, CodeProbe(val, e))
      else Scan(file, e, pos + 2, (sum + cs) % 0x1_0000, val, doCs)
  }

  /** `findnext(do_cs)` from offset `pos`: the sum starts at the seed 0xb58c and `cs` at 0. */
  function FindNext(file: seq<byte>, e: Endian, pos: nat, doCs: bool): (r: ScanResult)
    ensures r.Found? ==> pos <= r.at && r.at + 2 <= |file| && (r.at - pos) % 2 == 0
    ensures r.Found? && doCs ==> r.at >= pos + 2
    ensures r.Exhausted? ==> r.end == EndAfterShortRead(file, pos)
  {
    Scan(file, e, pos, Checksum.SEED, 0, doCs)
  }

  /** No word-aligned offset (relative to `from`) in `[from, to)` holds the sync byte. */
  predicate NoSyncBetween(file: seq<byte>, from: nat, to: nat)
  {
    forall q :: from <= q < to && q + 2 <= |file| && (q - from) % 2 == 0 ==> file[q] != SYNC
  }

  /**
   * Without the checksum test the scan stops at the first word-aligned
   * sync byte and returns the byte after it; it runs out only when there is
   * no such byte with a full word left.
   */
  lemma {:induction false} ScanWithoutChecksum(file: seq<byte>, e: Endian, pos: nat, sum: uint16, cs: uint16)
    ensures match Scan(file, e, pos, sum, cs, false)
            case Found(at, code) =>
              file[at] == SYNC && code == file[at + 1] && NoSyncBetween(file, pos, at)
            case Exhausted(_) =>
              NoSyncBetween(file, pos, |file|)
    decreases Remaining(file, pos)
  {
    if pos + 2 <= |file| {
      var val := Word(file[pos], file[pos + 1], e);
      ProbesPickFileOrder(file[pos], file[pos + 1], e);
      if file[pos] != SYNC {
        ScanWithoutChecksum(file, e, pos + 2, (sum + cs) % 0x1_0000, val);
        ShiftNoSync(file, pos);
      }
    }
  }

  lemma ShiftNoSync(file: seq<byte>, pos: nat)
    requires pos < |file| && file[pos] != SYNC
    ensures forall to: nat :: NoSyncBetween(file, pos + 2, to) ==> NoSyncBetween(file, pos, to)
  {
    forall to: nat | NoSyncBetween(file, pos + 2, to) ensures NoSyncBetween(file, pos, to) {
      forall q | pos <= q < to && q + 2 <= |file| && (q - pos) % 2 == 0 ensures file[q] != SYNC {
        if q > pos {
          assert (q - (pos + 2)) % 2 == 0;
        }
      }
    }
  }

  /**
   * Resynchronisation does not lose the next record: after any run of
   * word-aligned bytes free of the sync byte, the scan lands exactly on
   * the record that follows.
   */
  lemma SkipsGarbageToNextRecord(file: seq<byte>, e: Endian, pos: nat, at: nat)
    requires pos <= at && (at - pos) % 2 == 0 && at + 2 <= |file|
    requires NoSyncBetween(file, pos, at) && file[at] == SYNC
    ensures FindNext(file, e, pos, false) == Found(at, file[at + 1])
  {
    ScanWithoutChecksum(file, e, pos, Checksum.SEED, 0);
  }

  /** The word at offset `i`. */
  function WordAt(file: seq<byte>, i: nat, e: Endian): uint16
    requires i + 2 <= |file|
  {
    Word(file[i], file[i + 1], e)
  }

  /** Seeded word sum of the block `[start, end)`, reduced to 16 bits. */
  function BlockCheck(file: seq<byte>, e: Endian, start: nat, end: nat): uint16
    requires start <= end <= |file| && (end - start) % 2 == 0
  {
    (Checksum.SEED + Sum(Words(file[start..end], e))) % 0x1_0000
  }

  /** The running state of the checked scan after reading the words of `[start, pos)`. */
  ghost predicate RunningState(file: seq<byte>, e: Endian, start: nat, pos: nat, sum: uint16, cs: uint16)
  {
    && start <= pos <= |file| && (pos - start) % 2 == 0
    && (if pos == start then sum == Checksum.SEED && cs == 0
        else sum == BlockCheck(file, e, start, pos - 2) && cs == WordAt(file, pos - 2, e))
  }

  /** A word-aligned offset after `start` where a sync byte follows a valid block checksum. */
  ghost predicate CheckedBoundary(file: seq<byte>, e: Endian, start: nat, q: nat)
    requires start + 2 <= q && q + 2 <= |file| && (q - start) % 2 == 0
  {
    file[q] == SYNC && WordAt(file, q - 2, e) == BlockCheck(file, e, start, q - 2)
  }

  /** No word-aligned offset of `[from, to)` that lies past `start`'s first word is a checked boundary. */
  ghost predicate NoCheckedBoundaryBetween(file: seq<byte>, e: Endian, start: nat, from: nat, to: nat)
    requires to + 2 <= |file|
  {
    forall q: nat :: from <= q < to && start + 2 <= q && (q - start) % 2 == 0 ==>
      !CheckedBoundary(file, e, start, q)
  }

  /**
   * What the checked scan promises when it finds a word: it lies past the
   * start's first word, is a checked boundary, and no checked boundary
   * lies between `from` and it.
   */
  ghost predicate CheckedScanResult(file: seq<byte>, e: Endian, start: nat, from: nat, r: ScanResult)
  {
    r.Found? ==>
      && r.at >= start + 2 && r.at + 2 <= |file| && (r.at - start) % 2 == 0
      && r.code == file[r.at + 1] && CheckedBoundary(file, e, start, r.at)
      && NoCheckedBoundaryBetween(file, e, start, from, r.at)
  }

  /**
   * With the checksum test the scan stops at the first word-aligned sync
   * byte that is preceded by the seeded word sum of every word from the
   * scan's start up to that checksum word: the end of a well-formed record
   * that began at the start offset, or of a run of such records.
   */
  lemma {:induction false} ScanWithChecksum(file: seq<byte>, e: Endian, start: nat, pos: nat, sum: uint16, cs: uint16)
    requires RunningState(file, e, start, pos, sum, cs)
    ensures CheckedScanResult(file, e, start, pos, Scan(file, e, pos, sum, cs, true))
    decreases Remaining(file, pos)
  {
    if pos + 2 <= |file| {
      if pos == start || !(file[pos] == SYNC && cs == sum) {
        var sum', val := (sum + cs) % 0x1_0000, WordAt(file, pos, e);
        ScanPasses(file, e, start, pos, sum, cs);
        RunningStep(file, e, start, pos, sum, cs);
        ScanWithChecksum(file, e, start, pos + 2, sum', val);
        ExtendCheckedScan(file, e, start, pos, sum, cs, Scan(file, e, pos + 2, sum', val, true));
      } else {
        ScanStopsHere(file, e, start, pos, sum, cs);
      }
    }
  }

  /** A word that is not a checked sync word is passed over. */
  lemma ScanPasses(file: seq<byte>, e: Endian, start: nat, pos: nat, sum: uint16, cs: uint16)
    requires RunningState(file, e, start, pos, sum, cs) && pos + 2 <= |file|
    requires pos == start || !(file[pos] == SYNC && cs == sum)
    ensures Scan(file, e, pos, sum, cs, true) == Scan(file, e, pos + 2, (sum + cs) % 0x1_0000, WordAt(file, pos, e), true)
  {
    ProbesPickFileOrder(file[pos], file[pos + 1], e);
  }

  /** A sync byte after the matching running sum ends the scan on a checked boundary. */
  lemma ScanStopsHere(file: seq<byte>, e: Endian, start: nat, pos: nat, sum: uint16, cs: uint16)
    requires RunningState(file, e, start, pos, sum, cs) && pos + 2 <= |file|
    requires pos != start && file[pos] == SYNC && cs == sum
    ensures CheckedScanResult(file, e, start, pos, Scan(file, e, pos, sum, cs, true))
  {
    ProbesPickFileOrder(file[pos], file[pos + 1], e);
    assert Scan(file, e, pos, sum, cs, true) == Found(pos, file[pos + 1]);
  }

  /**
   * A word the checked scan passes over is not a checked boundary, so what
   * a scan from the next word promises also holds from this one.
   */
  lemma ExtendCheckedScan(file: seq<byte>, e: Endian, start: nat, pos: nat, sum: uint16, cs: uint16, r: ScanResult)
    requires RunningState(file, e, start, pos, sum, cs) && pos + 2 <= |file|
    requires pos == start || !(file[pos] == SYNC && cs == sum)
    requires CheckedScanResult(file, e, start, pos + 2, r) && (r.Found? ==> r.at >= pos + 2)
    ensures CheckedScanResult(file, e, start, pos, r)
  {
    if r.Found? {
      assert pos > start ==> !CheckedBoundary(file, e, start, pos);
      forall q: nat | pos <= q < r.at && start + 2 <= q && (q - start) % 2 == 0
        ensures !CheckedBoundary(file, e, start, q)
      {
        if q > pos {
          AlignedGap(start, pos, q);
        }
      }
    }
  }

  /** Reading one more word keeps the running state in step with the block. */
  lemma RunningStep(file: seq<byte>, e: Endian, start: nat, pos: nat, sum: uint16, cs: uint16)
    requires RunningState(file, e, start, pos, sum, cs) && pos + 2 <= |file|
    ensures RunningState(file, e, start, pos + 2, (sum + cs) % 0x1_0000, WordAt(file, pos, e))
  {
    if pos > start {
      BlockCheckStep(file, e, start, pos);
    } else {
      assert file[start..pos] == [];
      assert BlockCheck(file, e, start, pos) == Checksum.SEED;
    }
  }

  /** Extending a block by one word adds that word to its check, modulo 2^16. */
  lemma BlockCheckStep(file: seq<byte>, e: Endian, start: nat, pos: nat)
    requires start + 2 <= pos <= |file| && (pos - start) % 2 == 0
    ensures BlockCheck(file, e, start, pos)
            == (BlockCheck(file, e, start, pos - 2) + WordAt(file, pos - 2, e)) % 0x1_0000
  {
    BlockSumStep(file, e, start, pos);
    ModAdd(Checksum.SEED + Sum(Words(file[start..pos - 2], e)), WordAt(file, pos - 2, e));
  }

  lemma BlockSumStep(file: seq<byte>, e: Endian, start: nat, pos: nat)
    requires start + 2 <= pos <= |file| && (pos - start) % 2 == 0
    ensures Sum(Words(file[start..pos], e)) == Sum(Words(file[start..pos - 2], e)) + WordAt(file, pos - 2, e)
  {
    var a := file[start..pos - 2];
    var b := file[pos - 2..pos];
    assert file[start..pos] == a + b;
    WordsAppend(a, b, e);
    var w := WordAt(file, pos - 2, e);
    assert Words(b, e) == [w];
    SumAppend(Words(a, e), [w]);
    assert Sum([w]) == w;
  }

  /** Two distinct offsets at even distance from `start` are at least a word apart. */
  lemma AlignedGap(start: nat, pos: nat, q: nat)
    requires start <= pos < q && (pos - start) % 2 == 0 && (q - start) % 2 == 0
    ensures pos + 2 <= q
  {
    var a, b := (q - start) / 2, (pos - start) / 2;
    assert q - pos == 2 * (a - b);
  }

  lemma ModAdd(x: int, y: int)
    ensures (x % 0x1_0000 + y) % 0x1_0000 == (x + y) % 0x1_0000
  {
  }
}
