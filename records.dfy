/**
 * The record layer of the Nortek binary format: the record kinds and
 * their type codes (the readers' `fun_map`), the payload sizes each
 * reading routine asks for, and the integer fields it unpacks from a
 * payload, with the encoders a writer of the format would use.
 */
module Records {
  import opened Wire
  import opened Helpers
  import opened Py

  /** The record kinds of `fun_map`, named after their reading routines. */
  datatype Kind =
    | UserCfg | HeadCfg | HwCfg | VecCheckData | VecData | VecSysData | VecHdr
    | Microstrain | AwacProfile

  /** The type code (second byte of a record) of each kind. */
  function CodeOf(k: Kind): byte
  {
    match k
    case UserCfg => 0x00
    case HeadCfg => 0x04
    case HwCfg => 0x05
    case VecCheckData => 0x07
    case VecData => 0x10
    case VecSysData => 0x11
    case VecHdr => 0x12
    case Microstrain => 0x71
    case AwacProfile => 0x20
  }

  /**
   * `fun_map` lookup of `'0x%02x' % code`; the formatting is one-to-one on
   * bytes, so the lookup is on the code itself.
   */
  function KindOfCode(code: byte): (r: Option<Kind>)
    ensures r.Some? ==> CodeOf(r.value) == code
  {
    if code == 0x00 then Some(UserCfg)
    else if code == 0x04 then Some(HeadCfg)
    else if code == 0x05 then Some(HwCfg)
    else if code == 0x07 then Some(VecCheckData)
    else if code == 0x10 then Some(VecData)
    else if code == 0x11 then Some(VecSysData)
    else if code == 0x12 then Some(VecHdr)
    else if code == 0x71 then Some(Microstrain)
    else if code == 0x20 then Some(AwacProfile)
    else None
  }

  /** The table is exactly the inverse of the code assignment: every kind is found by its code and only by it. */
  lemma KindOfCodeIff(code: byte, k: Kind)
    ensures KindOfCode(code) == Some(k) <==> CodeOf(k) == code
  {
  }

  /** Payload bytes after the 2-byte id for the fixed-size records. */
  const HW_CFG_SIZE: nat := 44
  const HEAD_CFG_SIZE: nat := 220
  const USER_CFG_SIZE: nat := 508
  const VEC_DATA_SIZE: nat := 20
  const SYS_DATA_SIZE: nat := 24
  const VEC_HDR_SIZE: nat := 38
  const CHECK_HEAD_SIZE: nat := 6
  const IMU_HEAD_SIZE: nat := 4

  /**
   * The profile payload: 116 bytes of header and spare, 2 bytes of velocity
   * and 1 byte of amplitude per beam (3) and bin, and a fill byte when
   * `nbins` is odd.
   */
  function ProfileSize(nbins: nat): nat
  {
    116 + 9 * nbins + nbins % 2
  }

  /** The profile payload always holds a whole number of words and room for every bin. */
  lemma ProfileSizeEven(nbins: nat)
    ensures ProfileSize(nbins) % 2 == 0
    ensures ProfileSize(nbins) >= 116 + 9 * nbins
    ensures ProfileSize(nbins) - (116 + 9 * nbins) == (if nbins % 2 == 1 then 1 else 0)
  {
    var k := nbins / 2;
    assert nbins == 2 * k + nbins % 2;
    assert 9 * nbins + nbins % 2 == 18 * k + 10 * (nbins % 2);
  }

  // ---------------------------------------------------------------------
  // Velocity record (0x10): '4B2H3h6B'.

  datatype VecSample = VecSample(
    anaIn2Lsb: byte, count: byte, pressureMsb: byte, anaIn2Msb: byte,
    pressureLsw: uint16, anaIn1: uint16,
    vel: seq<int>, amp: seq<byte>, corr: seq<byte>)

  predicate IsSigned16(v: int) { -0x8000 <= v < 0x8000 }

  /** A sample every field of which fits its slot in the record. */
  predicate VecSampleFits(v: VecSample)
  {
    |v.vel| == 3 && |v.amp| == 3 && |v.corr| == 3
    && forall i :: 0 <= i < 3 ==> IsSigned16(v.vel[i])
  }

  function DecodeVec(b: seq<byte>, e: Endian): (v: VecSample)
    requires |b| == VEC_DATA_SIZE
    ensures VecSampleFits(v)
  {
    VecSample(b[0], b[1], b[2], b[3], U16At(b, 4, e), U16At(b, 6, e),
              [I16At(b, 8, e), I16At(b, 10, e), I16At(b, 12, e)],
              [b[14], b[15], b[16]], [b[17], b[18], b[19]])
  }

  function S16Bytes(v: int, e: Endian): (s: seq<byte>)
    requires IsSigned16(v)
    ensures |s| == 2
  {
    WordBytes(Unsigned16(v), e)
  }

  function EncodeVec(v: VecSample, e: Endian): (b: seq<byte>)
    requires VecSampleFits(v)
    ensures |b| == VEC_DATA_SIZE
  {
    [v.anaIn2Lsb, v.count, v.pressureMsb, v.anaIn2Msb]
    + WordBytes(v.pressureLsw, e) + WordBytes(v.anaIn1, e)
    + S16Bytes(v.vel[0], e) + S16Bytes(v.vel[1], e) + S16Bytes(v.vel[2], e)
    + v.amp + v.corr
  }

  /** A signed field reads back what was written into it. */
  lemma S16RoundTrip(b: seq<byte>, i: nat, v: int, e: Endian)
    requires IsSigned16(v) && i + 2 <= |b| && b[i] == S16Bytes(v, e)[0] && b[i + 1] == S16Bytes(v, e)[1]
    ensures I16At(b, i, e) == v
  {
  }

  /** An unsigned field reads back what was written into it. */
  lemma U16RoundTrip(b: seq<byte>, i: nat, w: uint16, e: Endian)
    requires i + 2 <= |b| && b[i] == WordBytes(w, e)[0] && b[i + 1] == WordBytes(w, e)[1]
    ensures U16At(b, i, e) == w
  {
  }

  /** Decoding a written velocity record gives the sample back. */
  lemma VecRoundTrip(v: VecSample, e: Endian)
    requires VecSampleFits(v)
    ensures DecodeVec(EncodeVec(v, e), e) == v
  {
    var b := EncodeVec(v, e);
    U16RoundTrip(b, 4, v.pressureLsw, e);
    U16RoundTrip(b, 6, v.anaIn1, e);
    S16RoundTrip(b, 8, v.vel[0], e);
    S16RoundTrip(b, 10, v.vel[1], e);
    S16RoundTrip(b, 12, v.vel[2], e);
    assert [b[14], b[15], b[16]] == v.amp;
    assert [b[17], b[18], b[19]] == v.corr;
  }

  /** Writing a decoded velocity record gives the bytes back: the layout has no slack. */
  lemma VecBytesRoundTrip(b: seq<byte>, e: Endian)
    requires |b| == VEC_DATA_SIZE
    ensures EncodeVec(DecodeVec(b, e), e) == b
  {
    var v := DecodeVec(b, e);
    WordBytesOfWord(b[4], b[5], e);
    WordBytesOfWord(b[6], b[7], e);
    WordBytesOfWord(b[8], b[9], e);
    WordBytesOfWord(b[10], b[11], e);
    WordBytesOfWord(b[12], b[13], e);
    Unsigned16OfSigned16(U16At(b, 8, e));
    Unsigned16OfSigned16(U16At(b, 10, e));
    Unsigned16OfSigned16(U16At(b, 12, e));
    assert EncodeVec(v, e) == b;
  }

  // ---------------------------------------------------------------------
  // System record (0x11): size (2), clock (6), then '2H3hH2BH'.

  datatype SysFields = SysFields(
    batt: uint16, cSound: uint16, heading: int, pitch: int, roll: int,
    temp: uint16, error: byte, status: byte, anaIn: uint16)

  predicate SysFieldsFit(f: SysFields)
  {
    IsSigned16(f.heading) && IsSigned16(f.pitch) && IsSigned16(f.roll)
  }

  /** The fields after the clock; `b` is the payload from offset 8 on. */
  function DecodeSysFields(b: seq<byte>, e: Endian): (f: SysFields)
    requires |b| == 16
    ensures SysFieldsFit(f)
  {
    SysFields(U16At(b, 0, e), U16At(b, 2, e), I16At(b, 4, e), I16At(b, 6, e), I16At(b, 8, e),
              U16At(b, 10, e), b[12], b[13], U16At(b, 14, e))
  }

  function EncodeSysFields(f: SysFields, e: Endian): (b: seq<byte>)
    requires SysFieldsFit(f)
    ensures |b| == 16
  {
    WordBytes(f.batt, e) + WordBytes(f.cSound, e)
    + S16Bytes(f.heading, e) + S16Bytes(f.pitch, e) + S16Bytes(f.roll, e)
    + WordBytes(f.temp, e) + [f.error, f.status] + WordBytes(f.anaIn, e)
  }

  lemma SysFieldsRoundTrip(f: SysFields, e: Endian)
    requires SysFieldsFit(f)
    ensures DecodeSysFields(EncodeSysFields(f, e), e) == f
  {
    var b := EncodeSysFields(f, e);
    U16RoundTrip(b, 0, f.batt, e);
    U16RoundTrip(b, 2, f.cSound, e);
    S16RoundTrip(b, 4, f.heading, e);
    S16RoundTrip(b, 6, f.pitch, e);
    S16RoundTrip(b, 8, f.roll, e);
    U16RoundTrip(b, 10, f.temp, e);
    U16RoundTrip(b, 14, f.anaIn, e);
  }

  /** One sample slot of the system columns: the clock is stored before the other fields. */
  datatype SysRow = SysRow(time: Option<Stamp>, fields: Option<SysFields>)

  // ---------------------------------------------------------------------
  // Profile record (0x20): size (2), clock (6), '7HBB2H', spare, bins.

  datatype ProfileHead = ProfileHead(
    error: uint16, anaIn1: uint16, batt: uint16, cSound: uint16,
    heading: uint16, pitch: uint16, roll: uint16, status: byte, temp: uint16,
    pressure: nat)

  /** The fields at offsets 8..28; the pressure is `65536 * p_msb + p_lsw`. */
  function DecodeProfileHead(b: seq<byte>, e: Endian): (h: ProfileHead)
    requires |b| == 20
    ensures h.pressure < 256 * 0x1_0000
  {
    ProfileHead(U16At(b, 0, e), U16At(b, 2, e), U16At(b, 4, e), U16At(b, 6, e),
                U16At(b, 8, e), U16At(b, 10, e), U16At(b, 12, e), b[15], U16At(b, 18, e),
                0x1_0000 * b[14] + U16At(b, 16, e))
  }

  function EncodeProfileHead(h: ProfileHead, e: Endian): (b: seq<byte>)
    requires h.pressure < 256 * 0x1_0000
    ensures |b| == 20
  {
    WordBytes(h.error, e) + WordBytes(h.anaIn1, e) + WordBytes(h.batt, e) + WordBytes(h.cSound, e)
    + WordBytes(h.heading, e) + WordBytes(h.pitch, e) + WordBytes(h.roll, e)
    + [h.pressure / 0x1_0000, h.status] + WordBytes(h.pressure % 0x1_0000, e) + WordBytes(h.temp, e)
  }

  lemma ProfileHeadRoundTrip(h: ProfileHead, e: Endian)
    requires h.pressure < 256 * 0x1_0000
    ensures DecodeProfileHead(EncodeProfileHead(h, e), e) == h
  {
    var b := EncodeProfileHead(h, e);
    U16RoundTrip(b, 0, h.error, e);
    U16RoundTrip(b, 2, h.anaIn1, e);
    U16RoundTrip(b, 4, h.batt, e);
    U16RoundTrip(b, 6, h.cSound, e);
    U16RoundTrip(b, 8, h.heading, e);
    U16RoundTrip(b, 10, h.pitch, e);
    U16RoundTrip(b, 12, h.roll, e);
    U16RoundTrip(b, 16, h.pressure % 0x1_0000, e);
    U16RoundTrip(b, 18, h.temp, e);
  }

  /** Velocity (signed) and amplitude of each of the 3 beams, one entry per bin. */
  datatype ProfileBins = ProfileBins(vel: seq<seq<int>>, amp: seq<seq<byte>>)

  predicate BinsFit(p: ProfileBins, nbins: nat)
  {
    |p.vel| == 3 && |p.amp| == 3
    && forall l :: 0 <= l < 3 ==>
         |p.vel[l]| == nbins && |p.amp[l]| == nbins
         && forall j :: 0 <= j < nbins ==> IsSigned16(p.vel[l][j])
  }

  /** `s` read as consecutive signed 16-bit values. */
  function I16s(s: seq<byte>, e: Endian): (vs: seq<int>)
    requires |s| % 2 == 0
    ensures |vs| == |s| / 2
    ensures forall k :: 0 <= k < |vs| ==> vs[k] == I16At(s, 2 * k, e) && IsSigned16(vs[k])
    decreases |s|
  {
    if s == [] then [] else [I16At(s, 0, e)] + I16s(s[2..], e)
  }

  function EncodeI16s(vs: seq<int>, e: Endian): (s: seq<byte>)
    requires forall k :: 0 <= k < |vs| ==> IsSigned16(vs[k])
    ensures |s| == 2 * |vs|
  {
    if vs == [] then [] else S16Bytes(vs[0], e) + EncodeI16s(vs[1..], e)
  }

  lemma {:induction false} I16sRoundTrip(vs: seq<int>, e: Endian)
    requires forall k :: 0 <= k < |vs| ==> IsSigned16(vs[k])
    ensures I16s(EncodeI16s(vs, e), e) == vs
    decreases |vs|
  {
    if vs != [] {
      var s := EncodeI16s(vs, e);
      assert s[2..] == EncodeI16s(vs[1..], e);
      S16RoundTrip(s, 0, vs[0], e);
      I16sRoundTrip(vs[1..], e);
    }
  }

  /** The three lanes `tmp[l * nbins:(l + 1) * nbins]` of a flat list of `3 * nbins` values. */
  function Lanes<T>(flat: seq<T>, nbins: nat): (ls: seq<seq<T>>)
    requires |flat| == 3 * nbins
    ensures |ls| == 3 && forall l :: 0 <= l < 3 ==> |ls[l]| == nbins
  {
    [flat[..nbins], flat[nbins..2 * nbins], flat[2 * nbins..]]
  }

  lemma LanesOfConcat<T>(ls: seq<seq<T>>, nbins: nat)
    requires |ls| == 3 && forall l :: 0 <= l < 3 ==> |ls[l]| == nbins
    ensures Lanes(ls[0] + ls[1] + ls[2], nbins) == ls
  {
    var flat := ls[0] + ls[1] + ls[2];
    assert flat[..nbins] == ls[0];
    assert flat[nbins..2 * nbins] == ls[1];
    assert flat[2 * nbins..] == ls[2];
  }

  /**
   * The bin block, `unpack(str(3n) + 'h' + str(3n) + 'B', byts[116:116 + 9n])`,
   * split into lanes per beam.
   */
  function DecodeBins(b: seq<byte>, nbins: nat, e: Endian): (p: ProfileBins)
    requires |b| == 9 * nbins
    ensures BinsFit(p, nbins)
  {
    EvenBytes(3 * nbins);
    var vel := I16s(b[..6 * nbins], e);
    SignedLanes(vel, nbins);
    ProfileBins(Lanes(vel, nbins), Lanes(b[6 * nbins..], nbins))
  }

  lemma EvenBytes(n: nat)
    ensures (2 * n) % 2 == 0 && (2 * n) / 2 == n
  {
  }

  lemma SignedLanes(flat: seq<int>, nbins: nat)
    requires |flat| == 3 * nbins && forall k :: 0 <= k < |flat| ==> IsSigned16(flat[k])
    ensures forall l, j :: 0 <= l < 3 && 0 <= j < nbins ==> IsSigned16(Lanes(flat, nbins)[l][j])
  {
    forall l, j | 0 <= l < 3 && 0 <= j < nbins ensures IsSigned16(Lanes(flat, nbins)[l][j]) {
      assert Lanes(flat, nbins)[l][j] == flat[l * nbins + j];
    }
  }

  function EncodeBins(p: ProfileBins, nbins: nat, e: Endian): (b: seq<byte>)
    requires BinsFit(p, nbins)
    ensures |b| == 9 * nbins
  {
    EncodeI16s(p.vel[0] + p.vel[1] + p.vel[2], e) + p.amp[0] + p.amp[1] + p.amp[2]
  }

  lemma BinsRoundTrip(p: ProfileBins, nbins: nat, e: Endian)
    requires BinsFit(p, nbins)
    ensures DecodeBins(EncodeBins(p, nbins, e), nbins, e) == p
  {
    var flat := p.vel[0] + p.vel[1] + p.vel[2];
    assert forall k :: 0 <= k < |flat| ==> IsSigned16(flat[k]) by {
      forall k | 0 <= k < |flat| ensures IsSigned16(flat[k]) {
        if k < nbins { assert flat[k] == p.vel[0][k]; }
        else if k < 2 * nbins { assert flat[k] == p.vel[1][k - nbins]; }
        else { assert flat[k] == p.vel[2][k - 2 * nbins]; }
      }
    }
    var b := EncodeBins(p, nbins, e);
    var vb := EncodeI16s(flat, e);
    assert b[..6 * nbins] == vb;
    assert b[6 * nbins..] == p.amp[0] + p.amp[1] + p.amp[2];
    I16sRoundTrip(flat, e);
    LanesOfConcat(p.vel, nbins);
    LanesOfConcat(p.amp, nbins);
  }

  /** One sample slot of the profile columns, filled in the order the record is unpacked. */
  datatype ProfileRow = ProfileRow(time: Option<Stamp>, head: Option<ProfileHead>, bins: Option<ProfileBins>)

  // ---------------------------------------------------------------------
  // Microstrain (IMU) record (0x71): size, count, AHRS id, then floats.

  /** The orientation variables an IMU record fills (the older reader's names for id 211 differ). */
  datatype ImuVar = Accel | AngRt | Mag | OrientMat | Angle | Veloc | MagVe

  /** One sample slot of the IMU columns: the raw 4-byte float words written per variable. */
  type ImuRow = map<ImuVar, seq<byte>>

  /**
   * The column writes of an IMU record, in order: each variable must exist
   * (else `missing`, `KeyError` for a dictionary and `AttributeError` for an
   * attribute) and slot `c` must exist (`IndexError`); writes made before a
   * failing one stay.
   */
  function WriteImu(col: seq<ImuRow>, vars: set<ImuVar>, missing: Exc, c: int, payload: seq<byte>,
                    ws: seq<(ImuVar, nat, nat)>): (r: (seq<ImuRow>, Option<Exc>))
    requires forall j :: 0 <= j < |ws| ==> ws[j].1 <= ws[j].2 <= |payload|
    ensures |r.0| == |col|
    decreases |ws|
  {
    if ws == [] then (col, None)
    else if ws[0].0 !in vars then (col, Some(missing))
    else match NpIndex(c, |col|)
      case None => (col, Some(IndexError))
      case Some(i) =>
        WriteImu(col[i := col[i][ws[0].0 := payload[ws[0].1..ws[0].2]]], vars, missing, c, payload, ws[1..])
  }

  /**
   * The IMU writes succeed exactly when the slot exists and every variable
   * of the layout has been created.
   */
  lemma {:induction false} WriteImuSucceeds(col: seq<ImuRow>, vars: set<ImuVar>, missing: Exc, c: int, payload: seq<byte>,
                                            ws: seq<(ImuVar, nat, nat)>)
    requires forall j :: 0 <= j < |ws| ==> ws[j].1 <= ws[j].2 <= |payload|
    ensures WriteImu(col, vars, missing, c, payload, ws).1.None? <==>
              ws == [] || (NpIndex(c, |col|).Some? && forall j :: 0 <= j < |ws| ==> ws[j].0 in vars)
    decreases |ws|
  {
    if ws != [] && ws[0].0 in vars && NpIndex(c, |col|).Some? {
      var i := NpIndex(c, |col|).value;
      WriteImuSucceeds(col[i := col[i][ws[0].0 := payload[ws[0].1..ws[0].2]]], vars, missing, c, payload, ws[1..]);
      assert forall j :: 1 <= j < |ws| ==> ws[j] == ws[1..][j - 1];
    }
  }

  /** Each variable of a write list is written once. */
  predicate DistinctVars(ws: seq<(ImuVar, nat, nat)>)
  {
    forall j, k :: 0 <= j < k < |ws| ==> ws[j].0 != ws[k].0
  }

  lemma DistinctTail(ws: seq<(ImuVar, nat, nat)>)
    requires DistinctVars(ws) && ws != []
    ensures DistinctVars(ws[1..])
    ensures forall k :: 0 <= k < |ws[1..]| ==> ws[1..][k] == ws[k + 1] && ws[1..][k].0 != ws[0].0
  {
    forall j, k | 0 <= j < k < |ws[1..]| ensures ws[1..][j].0 != ws[1..][k].0 {
      assert ws[1..][j] == ws[j + 1] && ws[1..][k] == ws[k + 1];
    }
  }

  /**
   * Successful IMU writes change only slot `c`, where each variable of the
   * layout holds its byte range of the payload (the layouts name each
   * variable once).
   */
  lemma {:induction false} WriteImuContents(col: seq<ImuRow>, vars: set<ImuVar>, missing: Exc, c: int, payload: seq<byte>,
                                            ws: seq<(ImuVar, nat, nat)>)
    requires forall j :: 0 <= j < |ws| ==> ws[j].1 <= ws[j].2 <= |payload|
    requires DistinctVars(ws)
    requires NpIndex(c, |col|).Some? && WriteImu(col, vars, missing, c, payload, ws).1.None?
    ensures var r := WriteImu(col, vars, missing, c, payload, ws).0;
            var i := NpIndex(c, |col|).value;
            && (forall k :: 0 <= k < |col| && k != i ==> r[k] == col[k])
            && (forall j :: 0 <= j < |ws| ==> ws[j].0 in r[i] && r[i][ws[j].0] == payload[ws[j].1..ws[j].2])
            && (forall v :: v in col[i] && (forall j :: 0 <= j < |ws| ==> ws[j].0 != v) ==> v in r[i] && r[i][v] == col[i][v])
    decreases |ws|
  {
    if ws != [] {
      var i := NpIndex(c, |col|).value;
      var col' := col[i := col[i][ws[0].0 := payload[ws[0].1..ws[0].2]]];
      DistinctTail(ws);
      WriteImuContents(col', vars, missing, c, payload, ws[1..]);
      var r := WriteImu(col', vars, missing, c, payload, ws[1..]).0;
      assert r == WriteImu(col, vars, missing, c, payload, ws).0;
      forall j | 0 <= j < |ws| ensures ws[j].0 in r[i] && r[i][ws[j].0] == payload[ws[j].1..ws[j].2] {
        if j > 0 {
          assert ws[j] == ws[1..][j - 1];
        }
      }
      forall v | v in col[i] && (forall j :: 0 <= j < |ws| ==> ws[j].0 != v)
        ensures v in r[i] && r[i][v] == col[i][v]
      {
        assert forall k :: 0 <= k < |ws[1..]| ==> ws[1..][k].0 != v;
      }
    }
  }

  /** Position of the AHRS id in the 4-byte IMU record head ('3xB'). */
  function AhrsId(b: seq<byte>): byte
    requires |b| >= 4
  {
    b[3]
  }

  // ---------------------------------------------------------------------
  // Configuration records.

  /** The configuration fields the readers consult after the header. */
  datatype Config = Config(
    serial: seq<byte>, avgInterval: uint16, coordAxes: nat, nbins: uint16,
    measInterval: uint16, nburst: uint16)

  const NoConfig := Config([], 0, 0, 0, 0, 0)

  /** Instrument families selected by the serial number prefix. */
  datatype Inst = Awac | Adv

  function UpperAscii(b: byte): (r: byte)
    ensures 'a' as int <= b <= 'z' as int ==> r == b - 32
    ensures !('a' as int <= b <= 'z' as int) ==> r == b
  {
    if 'a' as int <= b <= 'z' as int then b - 32 else b
  }

  predicate PrefixIs(s: seq<byte>, word: string)
    requires |word| == 3
  {
    |s| >= 3 && forall i :: 0 <= i < 3 ==> UpperAscii(s[i]) == word[i] as int
  }

  /**
   * `serialNum[0:3].upper()` compared with 'WPR' (AWAC) and 'VEC' (Vector).
   * Only ASCII letters change under the upper-casing; no other character
   * upper-cases to one of these letters.
   */
  function SerialInst(serial: seq<byte>): (r: Option<Inst>)
    ensures r == Some(Awac) <==> PrefixIs(serial, "WPR")
    ensures r == Some(Adv) <==> PrefixIs(serial, "VEC")
  {
    if PrefixIs(serial, "WPR") then
      assert UpperAscii(serial[0]) == 'W' as int != 'V' as int;
      Some(Awac)
    else if PrefixIs(serial, "VEC") then Some(Adv)
    else None
  }

  function LowerAscii(b: byte): byte
  {
    if 'A' as int <= b <= 'Z' as int then b + 32 else b
  }

  /** The instrument test ignores the letter case of the serial number. */
  lemma SerialInstIgnoresCase(serial: seq<byte>)
    ensures SerialInst(seq(|serial|, i requires 0 <= i < |serial| => LowerAscii(serial[i]))) == SerialInst(serial)
  {
    var low := seq(|serial|, i requires 0 <= i < |serial| => LowerAscii(serial[i]));
    assert forall i :: 0 <= i < |serial| ==> UpperAscii(low[i]) == UpperAscii(serial[i]);
  }

  /** Hardware configuration: serial number bytes (`tmp[0][:8]`) and firmware text bytes (`tmp[0][10:]`). */
  function HwSerial(b: seq<byte>): seq<byte>
    requires |b| == HW_CFG_SIZE
  {
    b[2..10]
  }

  function HwFirmware(b: seq<byte>): seq<byte>
    requires |b| == HW_CFG_SIZE
  {
    b[12..16]
  }

  /** User configuration fields, by their byte offsets in the 508-byte payload. */
  function UserAvgInterval(b: seq<byte>, e: Endian): uint16
    requires |b| == USER_CFG_SIZE
  {
    U16At(b, 14, e)
  }

  function UserCoordIndex(b: seq<byte>, e: Endian): uint16
    requires |b| == USER_CFG_SIZE
  {
    U16At(b, 30, e)
  }

  function UserNBins(b: seq<byte>, e: Endian): uint16
    requires |b| == USER_CFG_SIZE
  {
    U16At(b, 32, e)
  }

  function UserMeasInterval(b: seq<byte>, e: Endian): uint16
    requires |b| == USER_CFG_SIZE
  {
    U16At(b, 36, e)
  }

  function UserDeployName(b: seq<byte>): seq<byte>
    requires |b| == USER_CFG_SIZE
  {
    b[38..44]
  }

  function UserComments(b: seq<byte>): seq<byte>
    requires |b| == USER_CFG_SIZE
  {
    b[254..434]
  }

  function UserNBurst(b: seq<byte>, e: Endian): uint16
    requires |b| == USER_CFG_SIZE
  {
    U16At(b, 450, e)
  }

  /** `['ENU', 'XYZ', 'BEAM'][i]`; any other index raises `IndexError`. */
  function CoordLabel(i: nat): (r: Option<string>)
    ensures r.Some? <==> i < 3
  {
    if i == 0 then Some("ENU") else if i == 1 then Some("XYZ") else if i == 2 then Some("BEAM") else None
  }

  /** What the profile routines decode from the bytes of a profile record written by the encoder. */
  lemma ProfileBytesDecode(b: seq<byte>, t: Stamp, h: ProfileHead, p: ProfileBins, nbins: nat, size: seq<byte>, spare: seq<byte>, fill: seq<byte>, e: Endian)
    requires 0 <= t.year <= 99 && t.month <= 99 && t.day <= 99 && t.hour <= 99 && t.minute <= 99 && t.second <= 99
    requires h.pressure < 256 * 0x1_0000 && BinsFit(p, nbins)
    requires |size| == 2 && |spare| == 88 && |fill| == nbins % 2
    requires b == size + EncodeStamp(t) + EncodeProfileHead(h, e) + spare + EncodeBins(p, nbins, e) + fill
    ensures |b| == ProfileSize(nbins)
    ensures DecodeStamp(b[2..8], true) == t.(year := FullYear(t.year))
    ensures DecodeProfileHead(b[8..28], e) == h
    ensures DecodeBins(b[116..116 + 9 * nbins], nbins, e) == p
  {
    assert b[2..8] == EncodeStamp(t);
    assert b[8..28] == EncodeProfileHead(h, e);
    assert b[116..116 + 9 * nbins] == EncodeBins(p, nbins, e);
    StampRoundTrip(t);
    ProfileHeadRoundTrip(h, e);
    BinsRoundTrip(p, nbins, e);
  }
}
