/**
 * The record checksum. A record is the 2-byte sync/id field, a payload and
 * a trailing 16-bit word; the format's rule is that the word sum of the id
 * field and the payload, plus the seed 46476 (0xb58c), equals the trailing
 * word modulo 2^16. The readers do not test that rule: they compare without
 * the modulo and raise when the difference is zero (see `RaisesAsWritten`).
 */
module Checksum {
  import opened Wire

  /** The seed added to every record's word sum. */
  const SEED: uint16 := 46476

  /** Word sum of the id field and the payload (`np.sum(unpack(e + k * 'H', id + payload))`). */
  function RecordWordSum(id: seq<byte>, payload: seq<byte>, e: Endian): (s: int)
    requires |id| == 2 && |payload| % 2 == 0
    ensures 0 <= s <= 0xFFFF * (1 + |payload| / 2)
  {
    var ws := Words(id + payload, e);
    SumNonNegative(ws);
    Sum(ws)
  }

  /** The trailing word a writer of the format appends to a record. */
  function TrailerFor(id: seq<byte>, payload: seq<byte>, e: Endian): uint16
    requires |id| == 2 && |payload| % 2 == 0
  {
    (RecordWordSum(id, payload, e) + SEED) % 0x1_0000
  }

  /** The format's acceptance rule for a record with word sum `sum` and trailing word `trailer`. */
  predicate FormatAccepts(sum: int, trailer: uint16)
  {
    (sum + SEED) % 0x1_0000 == trailer
  }

  /**
   * The readers' test, `if not (sum + 46476 - trailer): raise`: it raises
   * exactly when the unreduced sum plus seed equals the trailing word.
   * Whether this direction is intended is an open question of the source.
   */
  function RaisesAsWritten(sum: int, trailer: uint16): (r: bool)
    ensures r ==> sum + SEED < 0x1_0000
    ensures r && 0 <= sum ==> FormatAccepts(sum, trailer)
  {
    sum + SEED - trailer == 0
  }

  /** The appended trailer satisfies the format's rule. */
  lemma TrailerAccepted(id: seq<byte>, payload: seq<byte>, e: Endian)
    requires |id| == 2 && |payload| % 2 == 0
    ensures FormatAccepts(RecordWordSum(id, payload, e), TrailerFor(id, payload, e))
  {
  }

  /** The as-written test only ever raises on a record the format accepts. */
  lemma RaisesOnlyOnIntactRecords(sum: int, trailer: uint16)
    requires 0 <= sum
    ensures RaisesAsWritten(sum, trailer) ==> FormatAccepts(sum, trailer)
  {
  }

  /**
   * Once the sum plus seed reaches 2^16 the as-written test never raises,
   * whatever the trailing word: a damaged record passes.
   */
  lemma LargeSumsNeverRaise(sum: int, trailer: uint16)
    requires sum + SEED >= 0x1_0000
    ensures !RaisesAsWritten(sum, trailer)
  {
  }

  /** For a record with a small word sum the as-written test raises exactly when the format accepts. */
  lemma SmallSumsRaiseWhenIntact(sum: int, trailer: uint16)
    requires 0 <= sum && sum + SEED < 0x1_0000
    ensures RaisesAsWritten(sum, trailer) <==> FormatAccepts(sum, trailer)
  {
  }

  /**
   * A concrete intact record that the as-written test rejects: a velocity
   * record id (0xa5, 0x10) with a zero payload.
   */
  lemma IntactZeroRecordRaises()
    ensures var id, payload := [165, 16], seq(20, _ => 0);
            FormatAccepts(RecordWordSum(id, payload, Little), TrailerFor(id, payload, Little))
            && RaisesAsWritten(RecordWordSum(id, payload, Little), TrailerFor(id, payload, Little))
  {
    var id: seq<byte>, payload: seq<byte> := [165, 16], seq(20, _ => 0);
    var ws := Words(id + payload, Little);
    assert ws[0] == 165 + 256 * 16;
    assert forall k :: 1 <= k < |ws| ==> ws[k] == 0;
    SumOfHeadOnly(ws);
    assert RecordWordSum(id, payload, Little) == 4261;
  }

  lemma {:induction false} SumOfHeadOnly(ws: seq<uint16>)
    requires |ws| >= 1 && forall k :: 1 <= k < |ws| ==> ws[k] == 0
    ensures Sum(ws) == ws[0]
    decreases |ws|
  {
    if |ws| > 1 {
      SumOfHeadOnly(ws[..|ws| - 1]);
    }
  }
}
