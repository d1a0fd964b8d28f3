/**
 * Properties of the newer reader's step functions: what `read_id`
 * consumes and returns, the checksum switch, the dispatch history, the
 * sample-index policy of each routine, where samples land, and the
 * invariants the main loop keeps.
 */
module NortekProps {
  import opened Wire
  import opened Helpers
  import opened Records
  import opened Py
  import Sync
  import Checksum
  import opened NortekModel

  // ---------------------------------------------------------------------
  // Frame synchroniser.

  /** A record that starts with the sync byte: `read_id` consumes exactly its 2 id bytes and returns the type code. */
  lemma ReadIdInSync(env: Env, s: State)
    requires s.pos + 2 <= |env.file| && env.file[s.pos] == SYNC
    ensures ReadId(env, s) == Out(s.(pos := s.pos + 2), Ok(env.file[s.pos + 1]))
  {
  }

  /**
   * A corrupted id: `read_id` skips word-aligned bytes up to the first
   * sync byte after the id, steps over that sync word and returns the byte
   * after it; when there is none it raises `EOFError` at the end of the file.
   */
  lemma ReadIdResyncs(env: Env, s: State)
    requires s.pos + 2 <= |env.file| && env.file[s.pos] != SYNC
    ensures var o := ReadId(env, s);
            && OnlyPosMoved(s, o.st)
            && (o.res.Ok? ==>
                  var at := o.st.pos - 2;
                  && s.pos + 2 <= at && (at - s.pos) % 2 == 0
                  && env.file[at] == SYNC && o.res.value == env.file[at + 1]
                  && Sync.NoSyncBetween(env.file, s.pos + 2, at))
            && (o.res.Raised? ==>
                  o.st.pos == Sync.EndAfterShortRead(env.file, s.pos + 2)
                  && Sync.NoSyncBetween(env.file, s.pos + 2, |env.file|))
  {
    Sync.ScanWithoutChecksum(env.file, env.e, s.pos + 2, Checksum.SEED, 0);
  }

  /** With the test off, `checksum` only skips the 2-byte trailer; with it on, it raises before reading. */
  lemma ChecksumSwitch(env: Env, s: State)
    ensures !env.doChecksum ==> CheckSum(env, s) == Out(s.(pos := s.pos + 2), Ok(()))
    ensures env.doChecksum ==> CheckSum(env, s) == Out(s, Raised(TypeError))
  {
  }

  /** With the test on, reading the hardware record raises, so the reader can never be constructed. */
  lemma OpenWithChecksumRaises(file: seq<byte>, endian: Option<Endian>, nens: Nens)
    ensures Open(file, endian, true, nens).Raised?
  {
  }

  // ---------------------------------------------------------------------
  // Dispatch.

  /** No routine touches the history; only `readnext` does. */
  lemma RoutineKeepsHistory(env: Env, s: State, k: Kind)
    ensures Routine(env, s, k).st.lastread == s.lastread
  {
  }

  /**
   * An id outside `fun_map`: `readnext` rewinds the 2 id bytes, returns 10,
   * and changes nothing but the offset.
   */
  lemma ReadNextUnknownCode(env: Env, s: State)
    requires ReadId(env, s).res.Ok? && KindOfCode(ReadId(env, s).res.value).None?
    ensures ReadNext(env, s) == Out(s.(pos := ReadId(env, s).st.pos - 2), Ok(Some(10)))
  {
  }

  /**
   * A known id whose routine completes: the routine's name is pushed on
   * the history, the oldest entry drops out and the length stays 5.
   */
  lemma ReadNextKnownCode(env: Env, s: State, k: Kind)
    requires |s.lastread| == 5
    requires ReadId(env, s).res == Ok(CodeOf(k)) && ReadNext(env, s).res.Ok?
    ensures ReadNext(env, s).st.lastread == [Some(k)] + s.lastread[..4]
    ensures |ReadNext(env, s).st.lastread| == 5
  {
    KindOfCodeIff(CodeOf(k), k);
    RoutineKeepsHistory(env, ReadId(env, s).st, k);
  }

  // ---------------------------------------------------------------------
  // Sample-index policy.

  /** `read_vec_data` advances `c` by exactly one when it completes, and leaves it when it raises. */
  lemma VecDataAdvancesC(env: Env, s: State)
    ensures var o := ReadVecData(env, s);
            && (o.res.Ok? ==> o.st.c == s.c + 1)
            && (o.res.Raised? ==> o.st.c == s.c)
            && o.st == s.(pos := o.st.pos, c := o.st.c, dtypes := o.st.dtypes, vec := o.st.vec)
  {
  }

  /** `read_awac_profile` advances `c` by exactly one when it completes, and leaves it when it raises. */
  lemma AwacProfileAdvancesC(env: Env, s: State)
    ensures var o := ReadAwacProfile(env, s);
            && (o.res.Ok? ==> o.st.c == s.c + 1)
            && (o.res.Raised? ==> o.st.c == s.c)
            && o.st == s.(pos := o.st.pos, c := o.st.c, dtypes := o.st.dtypes, prof := o.st.prof)
  {
  }

  /** `read_vec_sysdata` never changes `c`. */
  lemma SysdataKeepsC(env: Env, s: State)
    ensures var o := ReadVecSysdata(env, s);
            && o.st.c == s.c
            && o.st == s.(pos := o.st.pos, dtypes := o.st.dtypes, sys := o.st.sys, burstStart := o.st.burstStart)
  {
  }

  /**
   * `read_microstrain` steps `c` back and forward again: a completed record
   * leaves a positive `c` where it was and turns 0 into 1; an AHRS id
   * without a layout (result 10) leaves the step back in place.
   */
  lemma MicrostrainNetC(env: Env, s: State)
    ensures var o := ReadMicrostrain(env, s);
            && (o.res == Ok(None) ==> o.st.c == (if s.c == 0 then 1 else s.c))
            && (o.res == Ok(Some(10)) ==> o.st.c == (if s.c == 0 then 0 else s.c - 1))
            && (o.res.Raised? ==> o.st.c == (if s.c == 0 then 0 else s.c - 1))
  {
  }

  /** The configuration, header and check-data routines leave `c` alone. */
  lemma OtherRoutinesKeepC(env: Env, s: State, k: Kind)
    requires k !in {VecData, AwacProfile, Microstrain}
    ensures Routine(env, s, k).st.c == s.c
  {
  }

  /** No step of `readnext` makes a non-negative `c` negative. */
  lemma ReadNextKeepsCNonNegative(env: Env, s: State)
    requires s.c >= 0
    ensures ReadNext(env, s).st.c >= 0
  {
    var r := ReadId(env, s);
    if r.res.Ok? {
      match KindOfCode(r.res.value)
      case None =>
      case Some(k) =>
        match k
        case VecData => VecDataAdvancesC(env, r.st);
        case AwacProfile => AwacProfileAdvancesC(env, r.st);
        case Microstrain => MicrostrainNetC(env, r.st);
        case _ => OtherRoutinesKeepC(env, r.st, k);
    }
  }

  // ---------------------------------------------------------------------
  // Where the samples land.

  /**
   * A velocity record written by the format's encoder, read in step: the
   * sample lands in slot `c`, `c` advances, the offset moves past the
   * record and its checksum word, and the history records it.
   */
  lemma VecRecordLandsAtC(env: Env, s: State, v: VecSample)
    requires !env.doChecksum && VecSampleFits(v)
    requires 0 <= s.c < |s.vec|
    requires s.pos + 24 <= |env.file|
    requires env.file[s.pos..s.pos + 2] == [SYNC, CodeOf(VecData)]
    requires env.file[s.pos + 2..s.pos + 22] == EncodeVec(v, env.e)
    ensures var o := ReadNext(env, s);
            && o.res == Ok(None)
            && o.st.vec == s.vec[s.c := Some(v)]
            && o.st.c == s.c + 1 && o.st.pos == s.pos + 24
            && o.st.lastread == [Some(VecData)] + DropLast(s.lastread)
  {
    assert env.file[s.pos] == env.file[s.pos..s.pos + 2][0];
    assert env.file[s.pos + 1] == env.file[s.pos..s.pos + 2][1];
    var s1 := s.(pos := s.pos + 2);
    ReadNextDispatchesVec(env, s);
    var s2 := if VecData in s1.dtypes then s1 else s1.(dtypes := s1.dtypes + [VecData]);
    var b := env.file[s1.pos..s1.pos + 20];
    assert Read(env, s2, VEC_DATA_SIZE) == Out(s2.(pos := s.pos + 22), Ok(b));
    VecStoreLands(env, s2.(pos := s.pos + 22), b, v);
    assert ReadVecData(env, s1) == StoreVec(env, s2.(pos := s.pos + 22), b);
  }

  /** A record with the velocity id is handed to `read_vec_data`, and the history records it on success. */
  lemma ReadNextDispatchesVec(env: Env, s: State)
    requires s.pos + 2 <= |env.file| && env.file[s.pos] == SYNC && env.file[s.pos + 1] == CodeOf(VecData)
    ensures var o := ReadVecData(env, s.(pos := s.pos + 2));
            ReadNext(env, s) == if o.res.Raised? then o else Out(o.st.(lastread := [Some(VecData)] + DropLast(o.st.lastread)), o.res)
  {
    ReadIdInSync(env, s);
    assert KindOfCode(CodeOf(VecData)) == Some(VecData);
  }

  /** The rest of `read_vec_data` on the bytes of a velocity record written by the encoder. */
  lemma VecStoreLands(env: Env, s: State, b: seq<byte>, v: VecSample)
    requires !env.doChecksum && VecSampleFits(v) && 0 <= s.c < |s.vec|
    requires b == EncodeVec(v, env.e)
    ensures StoreVec(env, s, b) == Out(s.(vec := s.vec[s.c := Some(v)], pos := s.pos + 2, c := s.c + 1), Ok(None))
  {
    VecRoundTrip(v, env.e);
  }

  /**
   * A system record read right after a check-data record and a header
   * marks a burst start at slot `c`; otherwise the burst flags are kept.
   */
  lemma SysdataMarksBurst(env: Env, s: State)
    requires ReadVecSysdata(env, s).res.Ok?
    ensures var o := ReadVecSysdata(env, s);
            && (IsBurstStart(s.lastread) ==> o.st.burstStart == s.burstStart[NpIndex(s.c, |s.burstStart|).value := true])
            && (!IsBurstStart(s.lastread) ==> o.st.burstStart == s.burstStart)
  {
  }

  /**
   * A system record whose clock is a valid date lands in slot `c` with its
   * clock and status fields decoded; an invalid clock raises `ValueError`
   * before anything is written.
   */
  lemma SysRecordLandsAtC(env: Env, s: State, t: Stamp, f: SysFields, size: seq<byte>)
    requires !env.doChecksum && !IsBurstStart(s.lastread) && 0 <= s.c < |s.sys|
    requires 0 <= t.year <= 99 && t.month <= 99 && t.day <= 99 && t.hour <= 99 && t.minute <= 99 && t.second <= 99
    requires SysFieldsFit(f) && |size| == 2
    requires s.pos + 26 <= |env.file|
    requires env.file[s.pos..s.pos + 24] == size + EncodeStamp(t) + EncodeSysFields(f, env.e)
    ensures var o := ReadVecSysdata(env, s);
            var d := t.(year := FullYear(t.year));
            && (ValidStamp(d) ==>
                  o.res == Ok(None) && o.st.sys == s.sys[s.c := SysRow(Some(d), Some(f))] && o.st.pos == s.pos + 26)
            && (!ValidStamp(d) ==> o.res == Raised(ValueError) && o.st.sys == s.sys)
  {
    var b := env.file[s.pos..s.pos + 24];
    var s2 := if VecSysData in s.dtypes then s else s.(dtypes := s.dtypes + [VecSysData]);
    assert Read(env, s2, SYS_DATA_SIZE) == Out(s2.(pos := s.pos + 24), Ok(b));
    SysStoreLands(env, s2.(pos := s.pos + 24), b, size, t, f);
  }

  /** The rest of `read_vec_sysdata` on the bytes of a system record written by the encoder. */
  lemma SysStoreLands(env: Env, s: State, b: seq<byte>, size: seq<byte>, t: Stamp, f: SysFields)
    requires !env.doChecksum && 0 <= s.c < |s.sys|
    requires 0 <= t.year <= 99 && t.month <= 99 && t.day <= 99 && t.hour <= 99 && t.minute <= 99 && t.second <= 99
    requires SysFieldsFit(f) && |size| == 2
    requires b == size + EncodeStamp(t) + EncodeSysFields(f, env.e)
    ensures var o := StoreSys(env, s, b);
            var d := t.(year := FullYear(t.year));
            && (ValidStamp(d) ==> o.res == Ok(None) && o.st == s.(sys := s.sys[s.c := SysRow(Some(d), Some(f))], pos := s.pos + 2))
            && (!ValidStamp(d) ==> o == Out(s, Raised(ValueError)))
  {
    assert b[2..8] == EncodeStamp(t);
    assert b[8..24] == EncodeSysFields(f, env.e);
    StampRoundTrip(t);
    SysFieldsRoundTrip(f, env.e);
  }

  /** With the checksum switched off, a completed profile record has consumed its bytes and the 2-byte trailer. */
  lemma AwacProfileConsumes(env: Env, s: State)
    requires !env.doChecksum && ReadAwacProfile(env, s).res.Ok?
    ensures ReadAwacProfile(env, s).st.pos == s.pos + ProfileSize(s.config.nbins) + 2
  {
  }

  /**
   * A profile record written by the format's encoder (size word, clock,
   * 20-byte sensor head, 88 spare bytes, the bins, a fill byte for an odd
   * bin count) lands in slot `c` with its clock, head and bins decoded, and
   * `c` advances; an invalid clock raises `ValueError` before anything is
   * written.
   */
  lemma ProfileRecordLandsAtC(env: Env, s: State, t: Stamp, h: ProfileHead, p: ProfileBins, size: seq<byte>, spare: seq<byte>, fill: seq<byte>)
    requires !env.doChecksum && 0 <= s.c < |s.prof|
    requires 0 <= t.year <= 99 && t.month <= 99 && t.day <= 99 && t.hour <= 99 && t.minute <= 99 && t.second <= 99
    requires h.pressure < 256 * 0x1_0000 && BinsFit(p, s.config.nbins)
    requires |size| == 2 && |spare| == 88 && |fill| == s.config.nbins % 2
    requires s.pos + ProfileSize(s.config.nbins) <= |env.file|
    requires env.file[s.pos..s.pos + ProfileSize(s.config.nbins)]
             == size + EncodeStamp(t) + EncodeProfileHead(h, env.e) + spare + EncodeBins(p, s.config.nbins, env.e) + fill
    ensures var o := ReadAwacProfile(env, s);
            var d := t.(year := FullYear(t.year));
            && (ValidStamp(d) ==>
                  && o.res == Ok(None) && o.st.c == s.c + 1
                  && o.st.prof == s.prof[s.c := ProfileRow(Some(d), Some(h), Some(p))]
                  && o.st.pos == s.pos + ProfileSize(s.config.nbins) + 2)
            && (!ValidStamp(d) ==> o.res == Raised(ValueError) && o.st.prof == s.prof && o.st.c == s.c)
  {
    ProfileReadsThenStores(env, s);
    ProfileBytesLand(env, s, env.file[s.pos..s.pos + ProfileSize(s.config.nbins)], t, h, p, size, spare, fill);
  }

  /** ProfileRecordLandsAtC once the read has handed the record's bytes `b` to the unpacking half. */
  lemma ProfileBytesLand(env: Env, s: State, b: seq<byte>, t: Stamp, h: ProfileHead, p: ProfileBins, size: seq<byte>, spare: seq<byte>, fill: seq<byte>)
    requires !env.doChecksum && 0 <= s.c < |s.prof|
    requires 0 <= t.year <= 99 && t.month <= 99 && t.day <= 99 && t.hour <= 99 && t.minute <= 99 && t.second <= 99
    requires h.pressure < 256 * 0x1_0000 && BinsFit(p, s.config.nbins)
    requires |size| == 2 && |spare| == 88 && |fill| == s.config.nbins % 2
    requires b == size + EncodeStamp(t) + EncodeProfileHead(h, env.e) + spare + EncodeBins(p, s.config.nbins, env.e) + fill
    requires |b| == ProfileSize(s.config.nbins)
    requires var n := ProfileSize(s.config.nbins);
             var s1 := if AwacProfile in s.dtypes then s else s.(dtypes := s.dtypes + [AwacProfile]);
             ReadAwacProfile(env, s) == StoreProfile(env, s1.(pos := s.pos + n), b)
    ensures var o := ReadAwacProfile(env, s);
            var d := t.(year := FullYear(t.year));
            && (ValidStamp(d) ==>
                  && o.res == Ok(None) && o.st.c == s.c + 1
                  && o.st.prof == s.prof[s.c := ProfileRow(Some(d), Some(h), Some(p))]
                  && o.st.pos == s.pos + ProfileSize(s.config.nbins) + 2)
            && (!ValidStamp(d) ==> o.res == Raised(ValueError) && o.st.prof == s.prof && o.st.c == s.c)
  {
    var s1 := if AwacProfile in s.dtypes then s else s.(dtypes := s.dtypes + [AwacProfile]);
    ProfileStoreLands(env, s1.(pos := s.pos + |b|), b, t, h, p, size, spare, fill);
  }

  /** A profile record that is whole in the file reads its bytes and hands over to the unpacking half. */
  lemma ProfileReadsThenStores(env: Env, s: State)
    requires s.pos + ProfileSize(s.config.nbins) <= |env.file|
    ensures var n := ProfileSize(s.config.nbins);
            var s1 := if AwacProfile in s.dtypes then s else s.(dtypes := s.dtypes + [AwacProfile]);
            ReadAwacProfile(env, s) == StoreProfile(env, s1.(pos := s.pos + n), env.file[s.pos..s.pos + n])
  {
    var n := ProfileSize(s.config.nbins);
    var s1 := if AwacProfile in s.dtypes then s else s.(dtypes := s.dtypes + [AwacProfile]);
    assert Read(env, s1, n) == Out(s1.(pos := s.pos + n), Ok(env.file[s.pos..s.pos + n]));
  }

  /** The rest of `read_awac_profile` on the bytes of a profile record written by the encoder. */
  lemma ProfileStoreLands(env: Env, s: State, b: seq<byte>, t: Stamp, h: ProfileHead, p: ProfileBins, size: seq<byte>, spare: seq<byte>, fill: seq<byte>)
    requires !env.doChecksum && 0 <= s.c < |s.prof|
    requires 0 <= t.year <= 99 && t.month <= 99 && t.day <= 99 && t.hour <= 99 && t.minute <= 99 && t.second <= 99
    requires h.pressure < 256 * 0x1_0000 && BinsFit(p, s.config.nbins)
    requires |size| == 2 && |spare| == 88 && |fill| == s.config.nbins % 2
    requires b == size + EncodeStamp(t) + EncodeProfileHead(h, env.e) + spare + EncodeBins(p, s.config.nbins, env.e) + fill
    ensures |b| == ProfileSize(s.config.nbins)
    ensures var o := StoreProfile(env, s, b);
            var d := t.(year := FullYear(t.year));
            && (ValidStamp(d) ==>
                  o == Out(s.(prof := s.prof[s.c := ProfileRow(Some(d), Some(h), Some(p))], pos := s.pos + 2, c := s.c + 1), Ok(None)))
            && (!ValidStamp(d) ==> o == Out(s, Raised(ValueError)))
  {
    ProfileBytesDecode(b, t, h, p, s.config.nbins, size, spare, fill, env.e);
    StoreProfileDecoded(env, s, b, t.(year := FullYear(t.year)), h, p);
  }

  /** The rest of `read_awac_profile` on bytes whose clock, head and bins decode to `d`, `h`, `p`. */
  lemma StoreProfileDecoded(env: Env, s: State, b: seq<byte>, d: Stamp, h: ProfileHead, p: ProfileBins)
    requires !env.doChecksum && 0 <= s.c < |s.prof| && |b| == ProfileSize(s.config.nbins)
    requires DecodeStamp(b[2..8], true) == d && DecodeProfileHead(b[8..28], env.e) == h
    requires DecodeBins(b[116..116 + 9 * s.config.nbins], s.config.nbins, env.e) == p
    ensures ValidStamp(d) ==>
              StoreProfile(env, s, b) == Out(s.(prof := s.prof[s.c := ProfileRow(Some(d), Some(h), Some(p))], pos := s.pos + 2, c := s.c + 1), Ok(None))
    ensures !ValidStamp(d) ==> StoreProfile(env, s, b) == Out(s, Raised(ValueError))
  {
  }

  /** The first IMU record creates the variables of its AHRS id and registers the IMU record kind. */
  lemma FirstImuRecordCreatesVars(env: Env, s: State)
    requires Accel !in s.imuVars && s.pos + 4 <= |env.file|
    ensures var o := ReadMicrostrain(env, s);
            var ahrs := env.file[s.pos + 3];
            && o.st.imuVars == s.imuVars + ImuVarsFor(ahrs)
            && o.st.dtypes == s.dtypes + [Microstrain]
            && o.st.hasImu
  {
    var s1 := if s.c == 0 then s else s.(c := s.c - 1);
    assert Avail(env.file, s1.pos, 4) == env.file[s.pos..s.pos + 4];
  }

  /** Each AHRS layout names a variable at most once, and only variables its id creates. */
  lemma ImuLayoutFits(ahrs: byte)
    requires ImuLayout(ahrs).Some?
    ensures var ws := ImuLayout(ahrs).value.1;
            && DistinctVars(ws)
            && forall j :: 0 <= j < |ws| ==> ws[j].0 in ImuVarsFor(ahrs)
  {
  }

  /**
   * An IMU record of a known AHRS layout (195, 204 or 211), read whole with
   * the checksum off, lands in slot `c - 1` (slot 0 when `c` is 0, counted
   * from the end when negative, as numpy indexes): each
   * variable of the layout holds its byte range of the payload, every other
   * slot is as it was, `c` ends one past that slot and the offset moves past
   * the payload and its 2-byte trailer.
   */
  lemma ImuRecordLandsAtC(env: Env, s: State)
    requires !env.doChecksum && s.pos + IMU_HEAD_SIZE <= |env.file|
    requires ImuLayout(env.file[s.pos + 3]).Some?
    requires s.pos + IMU_HEAD_SIZE + ImuLayout(env.file[s.pos + 3]).value.0 <= |env.file|
    requires Accel in s.imuVars ==> ImuVarsFor(env.file[s.pos + 3]) <= s.imuVars
    requires NpIndex(if s.c == 0 then 0 else s.c - 1, |s.imu|).Some?
    ensures var o := ReadMicrostrain(env, s);
            var c' := if s.c == 0 then 0 else s.c - 1;
            var (n, ws) := ImuLayout(env.file[s.pos + 3]).value;
            var p := env.file[s.pos + IMU_HEAD_SIZE..s.pos + IMU_HEAD_SIZE + n];
            var i := NpIndex(c', |s.imu|).value;
            && o.res == Ok(None)
            && o.st.c == c' + 1
            && o.st.pos == s.pos + IMU_HEAD_SIZE + n + 2
            && |o.st.imu| == |s.imu|
            && (forall k :: 0 <= k < |s.imu| && k != i ==> o.st.imu[k] == s.imu[k])
            && (forall j :: 0 <= j < |ws| ==> ws[j].0 in o.st.imu[i] && o.st.imu[i][ws[j].0] == p[ws[j].1..ws[j].2])
  {
    var ahrs := env.file[s.pos + 3];
    ImuLayoutFits(ahrs);
    var s1 := if s.c == 0 then s else s.(c := s.c - 1);
    var h := Read(env, s1, IMU_HEAD_SIZE);
    assert h.res.value == env.file[s.pos..s.pos + IMU_HEAD_SIZE];
    var s3 := h.st.(ahrsid := Some(ahrs), hasImu := true);
    var s4 := if Accel in s3.imuVars then s3 else s3.(dtypes := s3.dtypes + [Microstrain], imuVars := s3.imuVars + ImuVarsFor(ahrs));
    assert ReadMicrostrain(env, s) == ReadImuPayload(env, s4, ahrs);
    ImuPayloadLands(env, s4, ahrs);
  }

  /** The payload of an IMU record of a known layout lands in slot `c`, as ImuRecordLandsAtC states for the whole record. */
  lemma ImuPayloadLands(env: Env, s: State, ahrs: byte)
    requires !env.doChecksum && s.pos >= 2 && ImuLayout(ahrs).Some?
    requires s.pos + ImuLayout(ahrs).value.0 <= |env.file|
    requires forall j :: 0 <= j < |ImuLayout(ahrs).value.1| ==> ImuLayout(ahrs).value.1[j].0 in s.imuVars
    requires NpIndex(s.c, |s.imu|).Some?
    ensures var o := ReadImuPayload(env, s, ahrs);
            var (n, ws) := ImuLayout(ahrs).value;
            var p := env.file[s.pos..s.pos + n];
            var i := NpIndex(s.c, |s.imu|).value;
            && o.res == Ok(None)
            && o.st.c == s.c + 1
            && o.st.pos == s.pos + n + 2
            && |o.st.imu| == |s.imu|
            && (forall k :: 0 <= k < |s.imu| && k != i ==> o.st.imu[k] == s.imu[k])
            && (forall j :: 0 <= j < |ws| ==> ws[j].0 in o.st.imu[i] && o.st.imu[i][ws[j].0] == p[ws[j].1..ws[j].2])
  {
    var (n, ws) := ImuLayout(ahrs).value;
    ImuLayoutFits(ahrs);
    var r := Read(env, s, n);
    assert r.res.value == env.file[s.pos..s.pos + n];
    WriteImuSucceeds(r.st.imu, r.st.imuVars, KeyError, r.st.c, r.res.value, ws);
    WriteImuContents(r.st.imu, r.st.imuVars, KeyError, r.st.c, r.res.value, ws);
  }

  // ---------------------------------------------------------------------
  // Shapes and the main loop.

  /** `readnext` keeps every column's capacity and the history's five slots, however it ends. */
  lemma ReadNextKeepsShape(env: Env, s: State)
    requires Shaped(env, s)
    ensures Shaped(env, ReadNext(env, s).st)
  {
  }

  /** The loop of `readfile` keeps the shape and a non-negative `c`, however it ends. */
  lemma {:induction false} ReadLoopInvariant(env: Env, s: State, nlines: Option<int>)
    requires Shaped(env, s) && s.c >= 0
    ensures Shaped(env, ReadLoop(env, s, nlines).st) && ReadLoop(env, s, nlines).st.c >= 0
    decreases Sync.Remaining(env.file, s.pos)
  {
    if nlines != Some(s.c) {
      var r := ReadNext(env, s);
      ReadNextKeepsShape(env, s);
      ReadNextKeepsCNonNegative(env, s);
      if r.res.Ok? {
        var f: Step<byte> := if r.res.value == Some(10) then FindNext(env, r.st, true) else Out(r.st, Ok(0));
        if f.res.Ok? {
          assert ReadLoop(env, s, nlines) == AfterRecord(env, f.st, nlines, Sync.Remaining(env.file, s.pos));
          if env.npings.Some? && f.st.c >= env.npings.value {
            if Microstrain in f.st.dtypes {
              ReadNextKeepsShape(env, f.st);
              ReadNextKeepsCNonNegative(env, f.st);
            }
          } else {
            ReadLoopInvariant(env, f.st, nlines);
          }
        }
      }
    }
  }

  /**
   * `readfile` ends with `c` one below the loop's, so at least -1; a
   * loop asked to stop at the current `c` reads nothing.
   */
  lemma ReadFileBounds(env: Env, s: State, nlines: Option<int>)
    requires Shaped(env, s) && s.c >= 0
    ensures var o := ReadFile(env, s, nlines);
            && Shaped(env, o.st)
            && (o.res.Ok? ==> o.st.c >= -1 && o.st.c == ReadLoop(env, s, nlines).st.c - 1)
            && (nlines == Some(s.c) ==> o == Out(s.(c := s.c - 1), Ok(())))
  {
    ReadLoopInvariant(env, s, nlines);
  }

  /** The reader after one record has been read from `t` and, for the signal 10, after the re-sync. */
  function AfterPass(env: Env, t: State): (f: Step<byte>)
  {
    var r := ReadNext(env, t);
    if r.res.Raised? then Out(r.st, Raised(r.res.exc))
    else if r.res.value == Some(10) then FindNext(env, r.st, true)
    else Out(r.st, Ok(0))
  }

  /** The pass from `t` ended the loop at end of file: `readnext` or the re-sync raised `EOFError`, leaving `e`. */
  predicate EofStop(env: Env, t: State, e: State)
  {
    AfterPass(env, t) == Out(e, Raised(EofError))
  }

  /**
   * The pass from `t` read a record and reached the ping limit: the loop
   * stops there, after one more `readnext` when the file has IMU data.
   */
  predicate CapStop(env: Env, t: State, e: State)
  {
    var f := AfterPass(env, t);
    && f.res.Ok? && env.npings.Some? && f.st.c >= env.npings.value
    && e == (if Microstrain in f.st.dtypes then ReadNext(env, f.st).st else f.st)
  }

  /** The reader at the start of the last pass of the `readfile` loop from `s`. */
  function LastLoopState(env: Env, s: State, nlines: Option<int>): State
    decreases Sync.Remaining(env.file, s.pos)
  {
    if nlines == Some(s.c) then s
    else
      var r := ReadNext(env, s);
      if r.res.Raised? then s
      else
        var f: Step<byte> := if r.res.value == Some(10) then FindNext(env, r.st, true) else Out(r.st, Ok(0));
        if f.res.Raised? || (env.npings.Some? && f.st.c >= env.npings.value) then s
        else LastLoopState(env, f.st, nlines)
  }

  /**
   * A `readfile` loop that ends without an exception stopped on one of its
   * three conditions, met by its last pass: `c == nlines`, end of file, or
   * the ping limit with its extra IMU read.
   */
  lemma {:induction false} ReadLoopStops(env: Env, s: State, nlines: Option<int>)
    ensures var o := ReadLoop(env, s, nlines);
            var t := LastLoopState(env, s, nlines);
            o.res.Ok? ==>
              || (nlines == Some(t.c) && o.st == t)
              || EofStop(env, t, o.st)
              || CapStop(env, t, o.st)
    decreases Sync.Remaining(env.file, s.pos)
  {
    if nlines != Some(s.c) {
      var r := ReadNext(env, s);
      if r.res.Ok? {
        var f: Step<byte> := if r.res.value == Some(10) then FindNext(env, r.st, true) else Out(r.st, Ok(0));
        if f.res.Ok? && !(env.npings.Some? && f.st.c >= env.npings.value) {
          assert ReadLoop(env, s, nlines) == ReadLoop(env, f.st, nlines);
          ReadLoopStops(env, f.st, nlines);
        }
      }
    }
  }

  // ---------------------------------------------------------------------
  // Spacing of records in the header phase.

  /** The reader as the last pass of `findnextid(id)` from `s` starts it: the record it skips begins there. */
  function LastPass(env: Env, s: State, id: byte, passes: nat): (l: State)
    ensures OnlyPosMoved(s, l) && l.pos >= s.pos
    decreases |env.file| + 1 - passes
  {
    if passes > |env.file| then s
    else
      var r := SkipRecord(env, s);
      if r.res.Raised? || r.res.value == id then s
      else LastPass(env, r.st, id, passes + 1)
  }

  /**
   * A successful `findnextid(id)` stops right after skipping a record of
   * type `id` that starts inside the file, at or after where it began: the
   * offset returned is where skipping that record leaves the reader.
   */
  lemma FindNextIdLands(env: Env, s: State, id: byte, passes: nat)
    requires FindNextId(env, s, id, passes).res.Ok?
    ensures var o := FindNextId(env, s, id, passes);
            var l := LastPass(env, s, id, passes);
            l.pos < |env.file| && SkipRecord(env, l) == Out(o.st, Ok(id))
  {
    LastPassSkips(env, s, id, passes);
  }

  /** The last pass of a successful `findnextid(id)` skips a record of type `id` and leaves the reader where the search ends. */
  lemma {:induction false} LastPassSkips(env: Env, s: State, id: byte, passes: nat)
    requires FindNextId(env, s, id, passes).res.Ok?
    ensures SkipRecord(env, LastPass(env, s, id, passes)) == Out(FindNextId(env, s, id, passes).st, Ok(id))
    decreases |env.file| + 1 - passes
  {
    var r := SkipRecord(env, s);
    FindNextIdOkPass(env, s, id, passes);
    if r.res.value != id {
      FindNextIdSkipsOne(env, s, id, passes);
      LastPassSkips(env, r.st, id, passes + 1);
    } else {
      FindNextIdFound(env, s, id, passes);
    }
  }

  /** A successful `findnextid(id)` made its first pass within the bound and skipped a record there. */
  lemma FindNextIdOkPass(env: Env, s: State, id: byte, passes: nat)
    requires FindNextId(env, s, id, passes).res.Ok?
    ensures passes <= |env.file| && SkipRecord(env, s).res.Ok?
  {
  }

  /** A pass of `findnextid(id)` that skips a record of type `id` ends the search there. */
  lemma FindNextIdFound(env: Env, s: State, id: byte, passes: nat)
    requires passes <= |env.file| && SkipRecord(env, s).res == Ok(id)
    ensures FindNextId(env, s, id, passes) == Out(SkipRecord(env, s).st, Ok(SkipRecord(env, s).st.pos))
    ensures LastPass(env, s, id, passes) == s
  {
  }

  /** A pass of `findnextid(id)` that skips a record of another type hands the search on. */
  lemma FindNextIdSkipsOne(env: Env, s: State, id: byte, passes: nat)
    requires passes <= |env.file| && SkipRecord(env, s).res.Ok? && SkipRecord(env, s).res.value != id
    ensures FindNextId(env, s, id, passes) == FindNextId(env, SkipRecord(env, s).st, id, passes + 1)
    ensures LastPass(env, s, id, passes) == LastPass(env, SkipRecord(env, s).st, id, passes + 1)
  {
  }

  /**
   * A successful `code_spacing(id, iternum)` is the first `findnextid`,
   * found at `p0`, followed by the counted loop: the span is the final
   * offset less `p0`, and the count is what the loop counted.
   */
  lemma CodeSpacingParts(env: Env, s: State, id: byte, iternum: nat)
    ensures var o := CodeSpacing(env, s, id, iternum);
            var p := FindNextId(env, s, id, 0);
            o.res.Ok? ==>
              && p.res.Ok? && iternum > 0 && o.st.pos >= p.res.value
              && o.res.value.0 == o.st.pos - p.res.value
              && SpacingLoop(env, p.st, id, 0, iternum) == Out(o.st, Ok(o.res.value.1))
  {
  }

  /**
   * The header is the hardware, head and user configuration records in
   * that order (ids 5, 4, 0): the first id read that is not the expected
   * one raises `NotNortek` right after it is read, and a header that is
   * read completely has read exactly those ids.
   */
  lemma HeaderOrder(env: Env, s: State)
    ensures CodeOf(HwCfg) == 5 && CodeOf(HeadCfg) == 4 && CodeOf(UserCfg) == 0
    ensures var o := ReadHeader(env, s);
            var i1 := ReadId(env, s);
            && (i1.res.Ok? && i1.res.value != CodeOf(HwCfg) ==> o == Out(i1.st, Raised(NotNortek)))
            && (o.res.Ok? ==> i1.res == Ok(CodeOf(HwCfg)))
            && (i1.res == Ok(CodeOf(HwCfg)) && ReadHwCfg(env, i1.st).res.Ok? ==>
                  var i2 := ReadId(env, ReadHwCfg(env, i1.st).st);
                  && (i2.res.Ok? && i2.res.value != CodeOf(HeadCfg) ==> o == Out(i2.st, Raised(NotNortek)))
                  && (o.res.Ok? ==> i2.res == Ok(CodeOf(HeadCfg)))
                  && (i2.res == Ok(CodeOf(HeadCfg)) && ReadHeadCfg(env, i2.st).res.Ok? ==>
                        var i3 := ReadId(env, ReadHeadCfg(env, i2.st).st);
                        && (i3.res.Ok? && i3.res.value != CodeOf(UserCfg) ==> o == Out(i3.st, Raised(NotNortek)))
                        && (o.res.Ok? ==> i3.res == Ok(CodeOf(UserCfg)))))
  {
  }

  /** A reader that opens starts from the offset right after the user configuration record, with its columns empty. */
  lemma OpenStartsEmpty(file: seq<byte>, endian: Option<Endian>, doChecksum: bool, nens: Nens)
    requires Open(file, endian, doChecksum, nens).Ok?
    ensures var (env, s) := Open(file, endian, doChecksum, nens).value;
            && s.lastread == [None, None, None, None, None] && s.dtypes == []
            && (forall i :: 0 <= i < |s.vec| ==> s.vec[i].None?)
            && (forall i :: 0 <= i < |s.burstStart| ==> !s.burstStart[i])
            && 0 < s.pos
  {
  }
}
