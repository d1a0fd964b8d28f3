/**
 * Properties of the older reader: what `read_id` and `checksum` do, the
 * `flag_lastread_sysdata` policy each routine follows for `c`, the return
 * codes of `readnext`, why `readfile`'s loop stops and what its crop
 * keeps, and what `findnextid` and `code_spacing` measure.
 */
module AdvProps {
  import opened Wire
  import opened Helpers
  import opened Records
  import opened Py
  import Sync
  import Checksum
  import opened AdvModel

  // ---------------------------------------------------------------------
  // Frame synchroniser and checksum.

  /** A record that starts with the sync byte: `read_id` consumes its 2 id bytes, keeps them, and returns the type code. */
  lemma ReadIdInSync(env: Env, s: State)
    requires s.pos + 2 <= |env.file| && env.file[s.pos] == SYNC
    ensures ReadId(env, s) == Out(s.(pos := s.pos + 2, thisId := env.file[s.pos..s.pos + 2]), Ok(env.file[s.pos + 1]))
  {
  }

  /**
   * A corrupted id: the reader lands 2 bytes past the first word-aligned
   * sync byte after the id and returns the byte after it, keeping the
   * corrupted bytes as the id of the record; with no sync byte left it
   * raises `TypeError`.
   */
  lemma ReadIdResyncs(env: Env, s: State)
    requires s.pos + 2 <= |env.file| && env.file[s.pos] != SYNC
    ensures var o := ReadId(env, s);
            && o.st.thisId == env.file[s.pos..s.pos + 2]
            && (o.res.Ok? ==>
                  var at := o.st.pos - 2;
                  && s.pos + 2 <= at && (at - s.pos) % 2 == 0
                  && env.file[at] == SYNC && o.res.value == env.file[at + 1]
                  && Sync.NoSyncBetween(env.file, s.pos + 2, at))
            && (o.res.Raised? ==> o.res.exc == TypeError && Sync.NoSyncBetween(env.file, s.pos + 2, |env.file|))
  {
    Sync.ScanWithoutChecksum(env.file, env.e, s.pos + 2, Checksum.SEED, 0);
  }

  /** Fewer than 2 bytes left: unpacking the id fails. */
  lemma ReadIdShort(env: Env, s: State)
    requires s.pos + 2 > |env.file|
    ensures ReadId(env, s).res == Raised(StructError)
  {
  }

  /**
   * With the test on and an even payload, `checksum` reads the trailing
   * word and raises `CheckSumError` exactly on the as-written condition
   * over the id bytes and the payload; an odd payload cannot be unpacked
   * as words; with the test off only the trailer is skipped.
   */
  lemma ChecksumRule(env: Env, s: State, byts: seq<byte>)
    requires |s.thisId| == 2
    ensures !env.doChecksum ==> CheckSum(env, s, byts) == Out(s.(pos := s.pos + 2), Ok(()))
    ensures env.doChecksum && |byts| % 2 == 1 ==> CheckSum(env, s, byts) == Out(s, Raised(StructError))
    ensures env.doChecksum && |byts| % 2 == 0 && s.pos + 2 <= |env.file| ==>
              var sum := Checksum.RecordWordSum(s.thisId, byts, env.e);
              var trailer := U16At(env.file, s.pos, env.e);
              CheckSum(env, s, byts) ==
                Out(s.(pos := s.pos + 2),
                    if Checksum.RaisesAsWritten(sum, trailer) then Raised(CheckSumError) else Ok(()))
  {
  }

  /**
   * The as-written test lets any record whose word sum is large enough
   * through, whatever its trailing word.
   */
  lemma ChecksumPassesLargeSums(env: Env, s: State, byts: seq<byte>)
    requires env.doChecksum && |s.thisId| == 2 && |byts| % 2 == 0 && s.pos + 2 <= |env.file|
    requires Checksum.RecordWordSum(s.thisId, byts, env.e) + Checksum.SEED >= 0x1_0000
    ensures CheckSum(env, s, byts) == Out(s.(pos := s.pos + 2), Ok(()))
  {
    ChecksumRule(env, s, byts);
    Checksum.LargeSumsNeverRaise(Checksum.RecordWordSum(s.thisId, byts, env.e), U16At(env.file, s.pos, env.e));
  }

  // ---------------------------------------------------------------------
  // The sample-index policy.

  /**
   * A system record sets the flag and advances `c` before anything else,
   * however it ends; when it completes, its clock and status fields sit in
   * slot `c` and every other slot is unchanged.
   */
  lemma SysdataSetsFlagAndAdvances(env: Env, s: State)
    ensures var o := ReadVecSysdata(env, s);
            && o.st.flag == Some(true) && o.st.c == s.c + 1
            && (o.res.Ok? ==>
                  && NpIndex(s.c + 1, |s.sys|).Some?
                  && var k := NpIndex(s.c + 1, |s.sys|).value;
                  && o.st.sys[k].time.Some? && ValidStamp(o.st.sys[k].time.value) && o.st.sys[k].fields.Some?
                  && (forall j :: 0 <= j < |s.sys| && j != k ==> o.st.sys[j] == s.sys[j]))
  {
  }

  /**
   * A velocity record advances `c` only when the previous record was not
   * system data, always clears the flag when it completes, and puts the
   * sample decoded from its 20 bytes in slot `c`; before the first system
   * record the flag does not exist and the routine raises.
   */
  lemma VecDataFlagPolicy(env: Env, s: State)
    ensures s.flag.None? ==> ReadVecData(env, s) == Out(s, Raised(AttributeError))
    ensures var o := ReadVecData(env, s);
            s.flag.Some? && o.res.Ok? ==>
              && o.st.c == (if s.flag.value then s.c else s.c + 1)
              && o.st.flag == Some(false)
              && s.pos + VEC_DATA_SIZE <= |env.file|
              && NpIndex(o.st.c, |s.vec|).Some?
              && o.st.vec == s.vec[NpIndex(o.st.c, |s.vec|).value := Some(DecodeVec(env.file[s.pos..s.pos + VEC_DATA_SIZE], env.e))]
  {
    var o := ReadVecData(env, s);
    if s.flag.Some? && o.res.Ok? {
      var s1 := if !s.flag.value then s.(c := s.c + 1) else s;
      var i := InitKind(env, s1, VecData);
      assert Avail(env.file, i.st.pos, VEC_DATA_SIZE) == env.file[s.pos..s.pos + VEC_DATA_SIZE];
    }
  }

  /**
   * An IMU record steps `c` back by one and clears the flag only when the
   * previous record was system data; otherwise `c` and the flag are left
   * as they were. It never advances `c`.
   */
  lemma MicrostrainFlagPolicy(env: Env, s: State)
    ensures s.flag.None? ==> ReadMicrostrain(env, s) == Out(s, Raised(AttributeError))
    ensures s.flag == Some(true) ==> ReadMicrostrain(env, s).st.c == s.c - 1 && ReadMicrostrain(env, s).st.flag == Some(false)
    ensures s.flag == Some(false) ==> ReadMicrostrain(env, s).st.c == s.c && ReadMicrostrain(env, s).st.flag == Some(false)
  {
  }

  /** Only AHRS id 204 has a payload reader: any other id ends in an exception. */
  lemma MicrostrainOnly204(env: Env, s: State)
    requires s.flag.Some? && s.pos + IMU_HEAD_SIZE <= |env.file| && env.file[s.pos + 3] != 204
    ensures ReadMicrostrain(env, s).res.Raised?
    ensures ReadMicrostrain(env, s).res.exc == UnboundLocalError || ReadMicrostrain(env, s).res.exc == ValueError
  {
    var s1 := if s.flag.value then s.(flag := Some(false), c := s.c - 1) else s;
    assert Avail(env.file, s1.pos, IMU_HEAD_SIZE) == env.file[s.pos..s.pos + IMU_HEAD_SIZE];
  }

  /**
   * A completed 204 IMU record writes slot `c` only: acceleration, angular
   * rate, magnetometer and orientation matrix each hold their byte range of
   * the 78-byte payload.
   */
  lemma Microstrain204Lands(env: Env, s: State)
    requires s.flag == Some(false) && s.pos + IMU_HEAD_SIZE + 78 <= |env.file| && env.file[s.pos + 3] == 204
    requires ReadMicrostrain(env, s).res.Ok?
    ensures var o := ReadMicrostrain(env, s);
            var p := env.file[s.pos + IMU_HEAD_SIZE..s.pos + IMU_HEAD_SIZE + 78];
            && NpIndex(s.c, |s.imu|).Some?
            && var i := NpIndex(s.c, |s.imu|).value;
            && (forall k :: 0 <= k < |s.imu| && k != i ==> o.st.imu[k] == s.imu[k])
            && Accel in o.st.imu[i] && o.st.imu[i][Accel] == p[0..12]
            && AngRt in o.st.imu[i] && o.st.imu[i][AngRt] == p[12..24]
            && Mag in o.st.imu[i] && o.st.imu[i][Mag] == p[24..36]
            && OrientMat in o.st.imu[i] && o.st.imu[i][OrientMat] == p[36..72]
  {
    var (s2, b0) := Read(env, s, IMU_HEAD_SIZE);
    assert b0 == env.file[s.pos..s.pos + IMU_HEAD_SIZE];
    var s3 := if Accel in s2.imuVars then s2 else s2.(dtypes := s2.dtypes + [Microstrain]);
    var s4 := if Accel in s2.imuVars then s3 else s3.(imuVars := s3.imuVars + ImuVarsFor(204));
    var (s5, b) := Read(env, s4, 78);
    assert b == env.file[s.pos + IMU_HEAD_SIZE..s.pos + IMU_HEAD_SIZE + 78];
    WriteImuSucceeds(s5.imu, s5.imuVars, AttributeError, s5.c, b, LAYOUT_204);
    WriteImuContents(s5.imu, s5.imuVars, AttributeError, s5.c, b, LAYOUT_204);
    assert LAYOUT_204[0].0 == Accel && LAYOUT_204[1].0 == AngRt && LAYOUT_204[2].0 == Mag && LAYOUT_204[3].0 == OrientMat;
  }

  /** A profile record advances `c` by exactly one once its bytes are read, however it ends afterwards. */
  lemma AwacProfileAdvancesC(env: Env, s: State)
    requires Guard(AwacProfile) in Attrs(s.dtypes) || env.nSampGuess >= 0
    ensures ReadAwacProfile(env, s).st.c == s.c + 1
  {
  }

  /**
   * With the checksum switched off, a completed profile record has consumed
   * its bytes and skipped the 2-byte trailer, except at the very end of a
   * file cut just before the fill byte of an odd bin count: nothing unpacks
   * the fill byte, so that record completes one byte short.
   */
  lemma AwacProfileConsumes(env: Env, s: State)
    requires !env.doChecksum && ReadAwacProfile(env, s).res.Ok?
    ensures var p := ReadAwacProfile(env, s).st.pos;
            || p == s.pos + ProfileSize(s.config.nbins) + 2
            || (s.config.nbins % 2 == 1 && s.pos + ProfileSize(s.config.nbins) == |env.file| + 1 && p == |env.file| + 2)
  {
  }

  /** With the checksum switched on, the short record just described fails the checksum's unpacking instead. */
  lemma CheckedProfileConsumes(env: Env, s: State)
    requires env.doChecksum && |s.thisId| == 2 && ReadAwacProfile(env, s).res.Ok?
    ensures ReadAwacProfile(env, s).st.pos == s.pos + ProfileSize(s.config.nbins) + 2
  {
  }

  /** The profile columns can be written: they were created by a profile record, or will be by this one. */
  predicate ProfileWritable(env: Env, s: State)
  {
    AwacProfile in s.dtypes || (VecSysData !in s.dtypes && env.nSampGuess >= 0)
  }

  /**
   * A profile record written by the format's encoder lands in slot `c + 1`
   * with its clock, head and bins decoded; an invalid clock raises
   * `ValueError` with nothing written, though `c` has advanced.
   */
  lemma ProfileRecordLandsAtC(env: Env, s: State, t: Stamp, h: ProfileHead, p: ProfileBins, size: seq<byte>, spare: seq<byte>, fill: seq<byte>)
    requires !env.doChecksum && ProfileWritable(env, s) && 0 <= s.c + 1 < |s.prof|
    requires 0 <= t.year <= 99 && t.month <= 99 && t.day <= 99 && t.hour <= 99 && t.minute <= 99 && t.second <= 99
    requires h.pressure < 256 * 0x1_0000 && BinsFit(p, s.config.nbins)
    requires |size| == 2 && |spare| == 88 && |fill| == s.config.nbins % 2
    requires s.pos + ProfileSize(s.config.nbins) <= |env.file|
    requires env.file[s.pos..s.pos + ProfileSize(s.config.nbins)]
             == size + EncodeStamp(t) + EncodeProfileHead(h, env.e) + spare + EncodeBins(p, s.config.nbins, env.e) + fill
    ensures var o := ReadAwacProfile(env, s);
            var d := t.(year := FullYear(t.year));
            && o.st.c == s.c + 1
            && (ValidStamp(d) ==>
                  && o.res == Ok(())
                  && o.st.prof == s.prof[s.c + 1 := ProfileRow(Some(d), Some(h), Some(p))]
                  && o.st.pos == s.pos + ProfileSize(s.config.nbins) + 2)
            && (!ValidStamp(d) ==> o.res == Raised(ValueError) && o.st.prof == s.prof)
  {
    var n := ProfileSize(s.config.nbins);
    ProfileReadsThenStores(env, s);
    var i := InitKind(env, s, AwacProfile);
    var b := Avail(env.file, s.pos, n);
    assert b == env.file[s.pos..s.pos + n];
    ProfileStoreLands(env, i.st.(pos := s.pos + |b|, c := s.c + 1), b, t, h, p, size, spare, fill);
  }

  /** A profile record whose columns can be written reads its bytes, advances `c`, and hands over to the unpacking half. */
  lemma ProfileReadsThenStores(env: Env, s: State)
    requires ProfileWritable(env, s)
    ensures var i := InitKind(env, s, AwacProfile);
            var b := Avail(env.file, s.pos, ProfileSize(s.config.nbins));
            && i.res.Ok? && ProfileError in Attrs(i.st.dtypes) && i.st == s.(dtypes := i.st.dtypes)
            && ReadAwacProfile(env, s) == StoreProfile(env, i.st.(pos := s.pos + |b|, c := s.c + 1), b)
  {
    var i := InitKind(env, s, AwacProfile);
    assert i.res.Ok?;
    var (s1, b) := Read(env, i.st, ProfileSize(s.config.nbins));
    assert s1 == i.st.(pos := s.pos + |b|);
  }

  /** The unpacking half of `read_awac_profile` on the bytes of a profile record written by the encoder. */
  lemma ProfileStoreLands(env: Env, s: State, b: seq<byte>, t: Stamp, h: ProfileHead, p: ProfileBins, size: seq<byte>, spare: seq<byte>, fill: seq<byte>)
    requires !env.doChecksum && ProfileError in Attrs(s.dtypes) && 0 <= s.c < |s.prof|
    requires 0 <= t.year <= 99 && t.month <= 99 && t.day <= 99 && t.hour <= 99 && t.minute <= 99 && t.second <= 99
    requires h.pressure < 256 * 0x1_0000 && BinsFit(p, s.config.nbins)
    requires |size| == 2 && |spare| == 88 && |fill| == s.config.nbins % 2
    requires b == size + EncodeStamp(t) + EncodeProfileHead(h, env.e) + spare + EncodeBins(p, s.config.nbins, env.e) + fill
    ensures var o := StoreProfile(env, s, b);
            var d := t.(year := FullYear(t.year));
            && (ValidStamp(d) ==> o == Out(s.(prof := s.prof[s.c := ProfileRow(Some(d), Some(h), Some(p))], pos := s.pos + 2), Ok(())))
            && (!ValidStamp(d) ==> o == Out(s, Raised(ValueError)))
  {
    ProfileBytesDecode(b, t, h, p, s.config.nbins, size, spare, fill, env.e);
    StoreProfileDecoded(env, s, b, t.(year := FullYear(t.year)), h, p);
  }

  /** The unpacking half of `read_awac_profile` on complete bytes whose clock, head and bins decode to `d`, `h`, `p`. */
  lemma StoreProfileDecoded(env: Env, s: State, b: seq<byte>, d: Stamp, h: ProfileHead, p: ProfileBins)
    requires !env.doChecksum && ProfileError in Attrs(s.dtypes) && 0 <= s.c < |s.prof|
    requires |b| >= 116 + 9 * s.config.nbins
    requires DecodeStamp(b[2..8], true) == d && DecodeProfileHead(b[8..28], env.e) == h
    requires DecodeBins(b[116..116 + 9 * s.config.nbins], s.config.nbins, env.e) == p
    ensures ValidStamp(d) ==> StoreProfile(env, s, b) == Out(s.(prof := s.prof[s.c := ProfileRow(Some(d), Some(h), Some(p))], pos := s.pos + 2), Ok(()))
    ensures !ValidStamp(d) ==> StoreProfile(env, s, b) == Out(s, Raised(ValueError))
  {
    if ValidStamp(d) {
      var k := s.c;
      var s3 := s.(prof := s.prof[k := s.prof[k].(time := Some(d))]);
      var s4 := s3.(prof := s3.prof[k := s3.prof[k].(head := Some(h))]);
      var s5 := s4.(prof := s4.prof[k := s4.prof[k].(bins := Some(p))]);
      assert s5.prof == s.prof[k := ProfileRow(Some(d), Some(h), Some(p))];
      assert StoreProfile(env, s, b) == CheckSum(env, s5, b);
    }
  }

  /**
   * A profile record cut short after its sensor head: the clock and the
   * head land in slot `c + 1`, its bins are left as they were, and the
   * bins' unpacking raises `struct.error` at the end of the file.
   */
  lemma ProfileCutInBins(env: Env, s: State, t: Stamp, h: ProfileHead, size: seq<byte>, rest: seq<byte>)
    requires ProfileWritable(env, s) && 0 <= s.c + 1 < |s.prof| && s.pos <= |env.file|
    requires 0 <= t.year <= 99 && t.month <= 99 && t.day <= 99 && t.hour <= 99 && t.minute <= 99 && t.second <= 99
    requires ValidStamp(t.(year := FullYear(t.year)))
    requires h.pressure < 256 * 0x1_0000 && |size| == 2
    requires 28 + |rest| < 116 + 9 * s.config.nbins
    requires env.file[s.pos..] == size + EncodeStamp(t) + EncodeProfileHead(h, env.e) + rest
    ensures var o := ReadAwacProfile(env, s);
            && o.res == Raised(StructError) && o.st.c == s.c + 1 && o.st.pos == |env.file|
            && o.st.prof == s.prof[s.c + 1 := ProfileRow(Some(t.(year := FullYear(t.year))), Some(h), s.prof[s.c + 1].bins)]
  {
    ProfileReadsThenStores(env, s);
    var i := InitKind(env, s, AwacProfile);
    var b := Avail(env.file, s.pos, ProfileSize(s.config.nbins));
    assert b == env.file[s.pos..];
    assert b[2..8] == EncodeStamp(t);
    assert b[8..28] == EncodeProfileHead(h, env.e);
    StampRoundTrip(t);
    ProfileHeadRoundTrip(h, env.e);
    StoreProfileCutDecoded(env, i.st.(pos := s.pos + |b|, c := s.c + 1), b, t.(year := FullYear(t.year)), h);
  }

  /** The unpacking half of `read_awac_profile` on bytes that hold a valid clock and a head `h` but stop short of the bins. */
  lemma StoreProfileCutDecoded(env: Env, s: State, b: seq<byte>, d: Stamp, h: ProfileHead)
    requires ProfileError in Attrs(s.dtypes) && 0 <= s.c < |s.prof|
    requires 28 <= |b| < 116 + 9 * s.config.nbins
    requires DecodeStamp(b[2..8], true) == d && ValidStamp(d) && DecodeProfileHead(b[8..28], env.e) == h
    ensures StoreProfile(env, s, b) == Out(s.(prof := s.prof[s.c := ProfileRow(Some(d), Some(h), s.prof[s.c].bins)]), Raised(StructError))
  {
    var k := s.c;
    var s3 := s.(prof := s.prof[k := s.prof[k].(time := Some(d))]);
    var s4 := s3.(prof := s3.prof[k := s3.prof[k].(head := Some(h))]);
    assert s4.prof == s.prof[k := ProfileRow(Some(d), Some(h), s.prof[k].bins)];
    assert StoreProfile(env, s, b) == Out(s4, Raised(StructError));
  }

  /**
   * A profile record cut short inside its sensor head: only the clock
   * lands in slot `c + 1`, and the head's unpacking raises `struct.error`.
   */
  lemma ProfileCutInHead(env: Env, s: State, t: Stamp, size: seq<byte>, rest: seq<byte>)
    requires ProfileWritable(env, s) && 0 <= s.c + 1 < |s.prof| && s.pos <= |env.file|
    requires 0 <= t.year <= 99 && t.month <= 99 && t.day <= 99 && t.hour <= 99 && t.minute <= 99 && t.second <= 99
    requires ValidStamp(t.(year := FullYear(t.year)))
    requires |size| == 2 && |rest| < 20
    requires env.file[s.pos..] == size + EncodeStamp(t) + rest
    ensures var o := ReadAwacProfile(env, s);
            && o.res == Raised(StructError) && o.st.c == s.c + 1 && o.st.pos == |env.file|
            && o.st.prof == s.prof[s.c + 1 := s.prof[s.c + 1].(time := Some(t.(year := FullYear(t.year))))]
  {
    var i := InitKind(env, s, AwacProfile);
    var (s1, b) := Read(env, i.st, ProfileSize(s.config.nbins));
    assert b == env.file[s.pos..];
    assert b[2..8] == EncodeStamp(t);
    StampRoundTrip(t);
    assert ReadAwacProfile(env, s) == StoreProfile(env, s1.(c := s1.c + 1), b);
  }

  // ---------------------------------------------------------------------
  // Creation of columns.

  /**
   * A profile record after system data finds its guard `temp` already
   * created, skips its own creation block, writes the clock into the
   * shared `mpltime` and then raises on the missing `Error` column.
   */
  lemma ProfileAfterSysdataRaises(env: Env, s: State)
    requires VecSysData in s.dtypes && AwacProfile !in s.dtypes
    requires s.pos + 28 <= |env.file| && ValidStamp(DecodeStamp(env.file[s.pos + 2..s.pos + 8], true))
    requires 0 <= s.c + 1 < |s.prof|
    ensures var o := ReadAwacProfile(env, s);
            && o.res == Raised(AttributeError)
            && o.st.dtypes == s.dtypes && o.st.c == s.c + 1
            && o.st.prof == s.prof[s.c + 1 := s.prof[s.c + 1].(time := Some(DecodeStamp(env.file[s.pos + 2..s.pos + 8], true)))]
  {
    assert Temp in Attrs(s.dtypes) && ProfileError !in Attrs(s.dtypes);
    assert InitKind(env, s, AwacProfile) == Out(s, Ok(()));
    var (s1, b) := Read(env, s, ProfileSize(s.config.nbins));
    assert |b| >= 28 && b[2..8] == env.file[s.pos + 2..s.pos + 8];
    var t := DecodeStamp(b[2..8], true);
    var s2 := s1.(c := s1.c + 1);
    var s3 := s2.(prof := s2.prof[s.c + 1 := s2.prof[s.c + 1].(time := Some(t))]);
    assert StoreProfile(env, s2, b) == Out(s3, Raised(AttributeError));
  }

  /**
   * A system record after a profile finds its guard `mpltime` already
   * created, writes its clock, and then raises on the missing `error`
   * column, leaving the status fields of the slot as they were.
   */
  lemma SysdataAfterProfileRaises(env: Env, s: State)
    requires AwacProfile in s.dtypes && VecSysData !in s.dtypes
    requires s.pos + SYS_DATA_SIZE <= |env.file| && ValidStamp(DecodeStamp(env.file[s.pos + 2..s.pos + 8], true))
    requires 0 <= s.c + 1 < |s.sys|
    ensures var o := ReadVecSysdata(env, s);
            && o.res == Raised(AttributeError)
            && o.st.dtypes == s.dtypes && o.st.c == s.c + 1
            && o.st.sys == s.sys[s.c + 1 := s.sys[s.c + 1].(time := Some(DecodeStamp(env.file[s.pos + 2..s.pos + 8], true)))]
  {
    assert MplTime in Attrs(s.dtypes) && SysError !in Attrs(s.dtypes);
    var s1 := s.(flag := Some(true), c := s.c + 1);
    assert InitKind(env, s1, VecSysData) == Out(s1, Ok(()));
    var (s2, b) := Read(env, s1, SYS_DATA_SIZE);
    assert |b| == SYS_DATA_SIZE && b[2..8] == env.file[s.pos + 2..s.pos + 8];
    var t := DecodeStamp(b[2..8], true);
    var s3 := s2.(sys := s2.sys[s.c + 1 := s2.sys[s.c + 1].(time := Some(t))]);
    assert StoreSys(env, s2, b) == Out(s3, Raised(AttributeError));
  }

  // ---------------------------------------------------------------------
  // Dispatch.

  /** `readnext` returns 1 exactly when fewer than 2 bytes are left for the id. */
  lemma ReadNextShortId(env: Env, s: State)
    ensures ReadNext(env, s).res == Ok(Some(1)) <==> s.pos + 2 > |env.file|
  {
  }

  /** An in-step id outside the dispatch table: 10, with the offset rewound onto the id. */
  lemma ReadNextUnknownCode(env: Env, s: State)
    requires s.pos + 2 <= |env.file| && env.file[s.pos] == SYNC && KindOfCode(env.file[s.pos + 1]).None?
    ensures ReadNext(env, s) == Out(s.(thisId := env.file[s.pos..s.pos + 2]), Ok(Some(10)))
  {
    ReadIdInSync(env, s);
  }

  /**
   * An in-step known id: `readnext` leaves the routine's state, returns
   * `None` exactly when the routine completes and 2 exactly when it fails
   * to unpack its bytes; any other exception passes through.
   */
  lemma ReadNextKnownCode(env: Env, s: State, k: Kind)
    requires s.pos + 2 <= |env.file| && env.file[s.pos] == SYNC && env.file[s.pos + 1] == CodeOf(k)
    ensures var r := Routine(env, s.(pos := s.pos + 2, thisId := env.file[s.pos..s.pos + 2]), k);
            var o := ReadNext(env, s);
            && o.st == r.st
            && (o.res == Ok(None) <==> r.res.Ok?)
            && (o.res == Ok(Some(2)) <==> r.res == Raised(StructError))
            && (r.res.Raised? && r.res.exc != StructError ==> o.res == Raised(r.res.exc))
  {
    ReadIdInSync(env, s);
    KindOfCodeIff(CodeOf(k), k);
  }

  // ---------------------------------------------------------------------
  // The main loop and the crop.

  /**
   * The loop of `readfile` only stops on one of its three conditions: a
   * return code 1 or 2, `c == nlines`, or `c >= _npings`.
   */
  lemma {:induction false} ReadLoopStops(env: Env, s: State, nlines: Option<int>)
    ensures var o := ReadLoop(env, s, nlines);
            o.res.Ok? ==>
              || o.res.value == Some(1) || o.res.value == Some(2)
              || nlines == Some(o.st.c)
              || (env.npings.Some? && o.st.c >= env.npings.value)
    decreases Sync.Remaining(env.file, s.pos)
  {
    if nlines != Some(s.c) {
      var r := ReadNext(env, s);
      if r.res.Ok? {
        var (s2, retval) := if r.res.value == Some(10) then (FindNext(env, r.st, true).0, None) else (r.st, r.res.value);
        if !(env.npings.Some? && s2.c >= env.npings.value) && retval.None? {
          ReadLoopStops(env, s2, nlines);
        }
      }
    }
  }

  /**
   * `readfile` steps `c` back once if the loop ended on code 2 and then
   * cuts every column to `[:c]`: with `c` in range the columns keep exactly
   * `c` rows, which leaves out the sample at index `c`; with `c == -1`
   * (no sample read) numpy's negative stop keeps all rows but the last.
   */
  lemma ReadFileCrops(env: Env, s: State, nlines: Option<int>)
    requires Shaped(env, s)
    ensures var l := ReadLoop(env, s, nlines);
            var o := ReadFile(env, s, nlines);
            o.res.Ok? ==>
              && o.st.c == (if l.res.value == Some(2) then l.st.c - 1 else l.st.c)
              && o.st.vec == l.st.vec[..|o.st.vec|] && o.st.sys == l.st.sys[..|o.st.sys|]
              && o.st.imu == l.st.imu[..|o.st.imu|] && o.st.prof == l.st.prof[..|o.st.prof|]
              && (0 <= o.st.c <= Capacity(env) ==> |o.st.vec| == o.st.c && |o.st.sys| == o.st.c && |o.st.imu| == o.st.c && |o.st.prof| == o.st.c)
              && (o.st.c == -1 && Capacity(env) > 0 ==> |o.st.vec| == Capacity(env) - 1)
  {
    var l := ReadLoop(env, s, nlines);
    if l.res.Ok? {
      var c := if l.res.value == Some(2) then l.st.c - 1 else l.st.c;
      if 0 <= c <= Capacity(env) {
        SliceStopInRange(c, Capacity(env));
      }
    }
  }

  // ---------------------------------------------------------------------
  // Spacing of records in the header phase.

  /**
   * `findnextid(id)` returns the offset of a sync word, at least one word
   * past where it started, whose type code is `id`, and leaves the reader
   * there.
   */
  lemma {:induction false} FindNextIdLands(env: Env, s: State, id: byte)
    ensures var o := FindNextId(env, s, id);
            o.res.Ok? ==>
              && o.res.value == o.st.pos && o.st.pos >= s.pos + 2 && o.st.pos + 2 <= |env.file|
              && env.file[o.st.pos] == SYNC && env.file[o.st.pos + 1] == id
    decreases Sync.Remaining(env.file, s.pos)
  {
    var (s1, code) := FindNext(env, s, true);
    if code.Some? {
      if s.pos <= |env.file| {
        Sync.ScanWithChecksum(env.file, env.e, s.pos, s.pos, Checksum.SEED, 0);
      }
      if code.value != id {
        FindNextIdLands(env, s1, id);
      }
    }
  }

  /** `k >= 1` further calls of `findnextid(id)` end on a record of type `id` at least `2 k` bytes on. */
  lemma {:induction false} FindNextIdTimesLands(env: Env, s: State, id: byte, k: nat)
    requires k >= 1
    ensures var o := FindNextIdTimes(env, s, id, k);
            o.res.Ok? ==>
              && o.st.pos >= s.pos + 2 * k && o.st.pos + 2 <= |env.file|
              && env.file[o.st.pos] == SYNC && env.file[o.st.pos + 1] == id
    decreases k
  {
    var r := FindNextId(env, s, id);
    FindNextIdLands(env, s, id);
    if r.res.Ok? && k > 1 {
      FindNextIdTimesLands(env, r.st, id, k - 1);
    }
  }

  /**
   * `code_spacing(id, iternum)` is the floor average of the distance
   * covered by the `iternum` calls after the first one, and that average
   * is at least one word, so the capacity guess that divides by it never
   * divides by zero.
   */
  lemma CodeSpacingAverage(env: Env, s: State, id: byte, iternum: nat)
    ensures var o := CodeSpacing(env, s, id, iternum);
            var p := FindNextId(env, s, id);
            o.res.Ok? ==>
              && iternum > 0 && p.res.Ok?
              && o.res.value * iternum <= o.st.pos - p.res.value < (o.res.value + 1) * iternum
              && o.res.value >= 2
  {
    var o := CodeSpacing(env, s, id, iternum);
    var p := FindNextId(env, s, id);
    if o.res.Ok? {
      CodeSpacingParts(env, s, id, iternum);
      DivBounds(o.res.value, o.st.pos - p.res.value, iternum);
    }
  }

  /** Both ends of the distance `code_spacing(id, iternum)` measures are records of type `id`. */
  lemma CodeSpacingEnds(env: Env, s: State, id: byte, iternum: nat)
    ensures var o := CodeSpacing(env, s, id, iternum);
            var p := FindNextId(env, s, id);
            o.res.Ok? ==>
              && p.res.Ok? && env.file[p.res.value] == SYNC && env.file[p.res.value + 1] == id
              && o.st.pos + 2 <= |env.file| && env.file[o.st.pos] == SYNC && env.file[o.st.pos + 1] == id
  {
    var o := CodeSpacing(env, s, id, iternum);
    var p := FindNextId(env, s, id);
    FindNextIdLands(env, s, id);
    if o.res.Ok? {
      CodeSpacingParts(env, s, id, iternum);
      FindNextIdTimesLands(env, p.st, id, iternum);
    }
  }

  /** The pieces `code_spacing` is made of when it succeeds. */
  lemma CodeSpacingParts(env: Env, s: State, id: byte, iternum: nat)
    ensures var o := CodeSpacing(env, s, id, iternum);
            var p := FindNextId(env, s, id);
            o.res.Ok? ==>
              && p.res.Ok? && iternum > 0
              && var l := FindNextIdTimes(env, p.st, id, iternum);
              && l.res.Ok? && o.st == l.st
              && o.st.pos >= p.res.value + 2 * iternum
              && o.res.value == (o.st.pos - p.res.value) / iternum
  {
    var p := FindNextId(env, s, id);
    if p.res.Ok? && iternum > 0 {
      FindNextIdTimesLands(env, p.st, id, iternum);
    }
  }

  lemma DivBounds(v: int, d: nat, k: nat)
    requires k > 0 && d >= 2 * k && v == d / k
    ensures v * k <= d < (v + 1) * k && v >= 2
  {
  }

  /**
   * The capacity guess divides by zero only for a Vector whose user
   * configuration has `AvgInterval == 0`: the record spacing it also
   * divides by is never zero.
   */
  lemma OnlyZeroAvgIntervalDivides(env: Env, s: State, inst: Inst)
    requires SizeGuess(env, s, inst) == Raised(ZeroDivisionError)
    ensures inst == Adv && s.config.avgInterval == 0
  {
    var code := if inst == Adv then CodeOf(VecSysData) else CodeOf(AwacProfile);
    var sp := CodeSpacing(env, s, code, 50);
    CodeSpacingAverage(env, s, code, 50);
  }

  /**
   * The header is the hardware, head and user configuration records in
   * that order (ids 5, 4, 0): the first id read that is not the expected
   * one raises `NotNortek` right after it is read, and a header that is
   * read completely has read exactly those ids.
   */
  lemma HeaderOrder(env: Env, s: State)
    ensures CodeOf(HwCfg) == 5 && CodeOf(HeadCfg) == 4 && CodeOf(UserCfg) == 0
    ensures var o := ReadHeader(env, s);
            var i1 := ReadId(env, s);
            && (i1.res.Ok? && i1.res.value != CodeOf(HwCfg) ==> o == Out(i1.st, Raised(NotNortek)))
            && (o.res.Ok? ==> i1.res == Ok(CodeOf(HwCfg)))
            && (i1.res == Ok(CodeOf(HwCfg)) && ReadHwCfg(env, i1.st).res.Ok? ==>
                  var i2 := ReadId(env, ReadHwCfg(env, i1.st).st);
                  && (i2.res.Ok? && i2.res.value != CodeOf(HeadCfg) ==> o == Out(i2.st, Raised(NotNortek)))
                  && (o.res.Ok? ==> i2.res == Ok(CodeOf(HeadCfg)))
                  && (i2.res == Ok(CodeOf(HeadCfg)) && ReadHeadCfg(env, i2.st).res.Ok? ==>
                        var i3 := ReadId(env, ReadHeadCfg(env, i2.st).st);
                        && (i3.res.Ok? && i3.res.value != CodeOf(UserCfg) ==> o == Out(i3.st, Raised(NotNortek)))
                        && (o.res.Ok? ==> i3.res == Ok(CodeOf(UserCfg)))))
  {
  }
}
