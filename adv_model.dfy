/**
 * The older Nortek reader (`vec_reader`, Python 2) as step functions. It
 * differs from the newer one in ways that matter: its reads are raw, so a
 * short read surfaces only as `struct.error` when the bytes are unpacked;
 * its checksum test really runs; `readnext` turns `struct.error` into the
 * return codes 1 and 2; `c` starts at -1 and follows the
 * `flag_lastread_sysdata` policy; and `readfile` crops every column to
 * `[:c]` at the end.
 */
module AdvModel {
  import opened Wire
  import opened Helpers
  import opened Records
  import opened Py
  import Sync
  import Checksum

  /** The file, its byte order, the checksum switch, `n_samp_guess` (an `int`, possibly negative) and `_npings`. */
  datatype Env = Env(file: seq<byte>, e: Endian, doChecksum: bool, nSampGuess: int, npings: Option<int>)

  /**
   * The reader's mutable context: the offset, `c`, the id bytes of the
   * current record `_thisid_bytes`, `flag_lastread_sysdata` (absent until
   * the first system record), `_dtypes`, the configuration, the IMU
   * variables created, and the sample columns.
   */
  datatype State = State(
    pos: nat,
    c: int,
    thisId: seq<byte>,
    flag: Option<bool>,
    dtypes: seq<Kind>,
    config: Config,
    imuVars: set<ImuVar>,
    vec: seq<Option<VecSample>>,
    sys: seq<SysRow>,
    imu: seq<ImuRow>,
    prof: seq<ProfileRow>)

  type Step<T> = Out<State, T>

  function Fail<T>(st: State, exc: Exc): Step<T>
  {
    Out(st, Raised(exc))
  }

  /** The length numpy gives a column created with `n_samp_guess` entries (creation fails when it is negative). */
  function Capacity(env: Env): nat
  {
    if env.nSampGuess < 0 then 0 else env.nSampGuess
  }

  /** Every column has the reader's capacity. */
  predicate Shaped(env: Env, s: State)
  {
    |s.vec| == Capacity(env) && |s.sys| == Capacity(env) && |s.imu| == Capacity(env) && |s.prof| == Capacity(env)
  }

  /** The columns keep their lengths. */
  predicate Framed(s: State, t: State)
  {
    |t.vec| == |s.vec| && |t.sys| == |s.sys| && |t.imu| == |s.imu| && |t.prof| == |s.prof|
  }

  // ---------------------------------------------------------------------
  // Stream primitives.

  /** `self.read = self.f.read`: at most `n` bytes, never an exception. */
  function Read(env: Env, s: State, n: nat): (o: (State, seq<byte>))
    ensures o.0 == s.(pos := o.0.pos) && o.0.pos == s.pos + |o.1| && |o.1| <= n
    ensures |o.1| == n <==> |Avail(env.file, s.pos, n)| == n
    ensures o.1 == Avail(env.file, s.pos, n)
  {
    var b := Avail(env.file, s.pos, n);
    (s.(pos := s.pos + |b|), b)
  }

  /**
   * `findnext(do_cs)`: on success the offset is left on the sync word and
   * its type code returned; when the file runs out the loop breaks and
   * the call returns `None`.
   */
  function FindNext(env: Env, s: State, doCs: bool): (o: (State, Option<byte>))
    ensures o.0 == s.(pos := o.0.pos) && o.0.pos >= s.pos
    ensures o.1.Some? ==> o.0.pos + 2 <= |env.file|
    ensures o.1.Some? && doCs ==> o.0.pos >= s.pos + 2
    ensures o.1.None? ==> o.0.pos == Sync.EndAfterShortRead(env.file, s.pos)
  {
    match Sync.FindNext(env.file, env.e, s.pos, doCs)
    case Exhausted(end) => (s.(pos := end), None)
    case Found(at, code) => (s.(pos := at), Some(code))
  }

  /**
   * `read_id`: keep the 2 bytes read as `_thisid_bytes`; fewer than 2 is a
   * `struct.error`; a corrupted sync byte resynchronises, and a scan that
   * runs out makes `int(None, 0)` raise `TypeError`.
   */
  function ReadId(env: Env, s: State): (o: Step<byte>)
    ensures o.st == s.(pos := o.st.pos, thisId := o.st.thisId) && o.st.pos >= s.pos
    ensures Framed(s, o.st) && o.st.c == s.c
    ensures o.res.Ok? ==> s.pos + 2 <= |env.file| && o.st.pos >= s.pos + 2 && |o.st.thisId| == 2
    ensures o.res.Raised? ==> o.res.exc == StructError || o.res.exc == TypeError
  {
    var (s1, b) := Read(env, s, 2);
    var s2 := s1.(thisId := b);
    if |b| != 2 then Fail(s2, StructError)
    else if b[0] != SYNC then
      var (s3, code) := FindNext(env, s2, false);
      if code.None? then Fail(s3, TypeError)
      else Out(s3.(pos := s3.pos + 2), Ok(code.value))
    else Out(s2, Ok(b[1]))
  }

  /**
   * `checksum(byts)`: switched off, skip the trailer. Switched on, unpack
   * `1 + len(byts) // 2` words from the id bytes and `byts` (a
   * `struct.error` unless they hold exactly that many), read the trailer,
   * and raise `CheckSumError` on the as-written condition.
   */
  function CheckSum(env: Env, s: State, byts: seq<byte>): (o: Step<()>)
    ensures o.st == s.(pos := o.st.pos) && o.st.pos >= s.pos
    ensures o.res.Raised? ==> o.res.exc == StructError || o.res.exc == CheckSumError
  {
    if !env.doChecksum then Out(s.(pos := s.pos + 2), Ok(()))
    else if |s.thisId| + |byts| != 2 * (1 + |byts| / 2) then Fail(s, StructError)
    else
      var sum := Sum(Words(s.thisId + byts, env.e));
      var (s1, t) := Read(env, s, 2);
      if |t| != 2 then Fail(s1, StructError)
      else if Checksum.RaisesAsWritten(sum, U16At(t, 0, env.e)) then Fail(s1, CheckSumError)
      else Out(s1, Ok(()))
  }

  /**
   * The attributes of the data object that the record routines create and
   * write, named as in the source; `SysError` is the system record's
   * `error` and `ProfileError` the profile record's `Error`.
   */
  datatype Attr =
    | AnaIn2LSB | Count | PressureMSB | AnaIn2MSB | PressureLSW | AnaIn1 | U | Amp | Corr
    | MplTime | Batt | CSound | Heading | Pitch | Roll | Temp | SysError | Status | AnaIn
    | ProfileError | Pressure

  /** The attributes that the creation block of each record kind adds. */
  function Creates(k: Kind): set<Attr>
  {
    match k
    case VecData => {AnaIn2LSB, Count, PressureMSB, AnaIn2MSB, PressureLSW, AnaIn1, U, Amp, Corr}
    case VecSysData => {MplTime, Batt, CSound, Heading, Pitch, Roll, Temp, SysError, Status, AnaIn}
    case AwacProfile => {MplTime, ProfileError, AnaIn1, Batt, CSound, Heading, Pitch, Roll, Pressure, Status, Temp, U, Amp}
    case _ => {}
  }

  /** The attribute whose absence makes a record routine run its creation block. */
  function Guard(k: Kind): Attr
    requires k in {VecData, VecSysData, AwacProfile}
  {
    match k
    case VecData => Count
    case VecSysData => MplTime
    case AwacProfile => Temp
  }

  /** The attributes that exist once the creation blocks of `ks` have run. */
  function Attrs(ks: seq<Kind>): set<Attr>
  {
    (if VecData in ks then Creates(VecData) else {})
    + (if VecSysData in ks then Creates(VecSysData) else {})
    + (if AwacProfile in ks then Creates(AwacProfile) else {})
  }

  /**
   * The creation block of a record kind: it runs only when the kind's
   * guard attribute is missing, which is not the same as the kind never
   * having been created, since the system and profile records create
   * each other's guard; creating fails for a negative `n_samp_guess`.
   */
  function InitKind(env: Env, s: State, k: Kind): (o: Step<()>)
    requires k in {VecData, VecSysData, AwacProfile}
    ensures o.st == s.(dtypes := o.st.dtypes)
    ensures o.res.Ok? <==> Guard(k) in Attrs(s.dtypes) || env.nSampGuess >= 0
    ensures o.res.Raised? ==> o.res.exc == ValueError
    ensures o.st.dtypes == s.dtypes || (Guard(k) !in Attrs(s.dtypes) && o.st.dtypes == s.dtypes + [k])
    ensures o.res.Ok? ==> Guard(k) in Attrs(o.st.dtypes)
  {
    if Guard(k) in Attrs(s.dtypes) then Out(s, Ok(()))
    else if env.nSampGuess < 0 then Fail(s, ValueError)
    else Out(s.(dtypes := s.dtypes + [k]), Ok(()))
  }

  // ---------------------------------------------------------------------
  // Record routines.

  /**
   * `read_vec_data`: advance `c` unless the previous record was system
   * data, decode the sample into slot `c`, clear the flag, check the sum.
   */
  function ReadVecData(env: Env, s: State): (o: Step<()>)
    ensures Framed(s, o.st) && o.st.pos >= s.pos
    ensures o.res.Ok? ==> o.st.pos > s.pos
  {
    if s.flag.None? then Fail(s, AttributeError)
    else
      var s1 := if !s.flag.value then s.(c := s.c + 1) else s;
      var i := InitKind(env, s1, VecData);
      if i.res.Raised? then Fail(i.st, i.res.exc)
      else
        var (s2, b) := Read(env, i.st, VEC_DATA_SIZE);
        if |b| != VEC_DATA_SIZE then Fail(s2, StructError)
        else StoreVec(env, s2, b)
  }

  /** The unpacking half of `read_vec_data`: the sample into slot `c`, the flag cleared, the checksum. */
  function StoreVec(env: Env, s: State, b: seq<byte>): (o: Step<()>)
    requires |b| == VEC_DATA_SIZE
    ensures Framed(s, o.st) && o.st.pos >= s.pos
    ensures o.res.Ok? ==> o.st.pos > s.pos
  {
    match NpSet(s.vec, s.c, Some(DecodeVec(b, env.e)))
    case None => Fail(s, IndexError)
    case Some(col) => CheckSum(env, s.(vec := col, flag := Some(false)), b)
  }

  /**
   * `read_vec_sysdata`: set the flag, advance `c`, then write the clock
   * (needs 8 bytes and a valid date) and the status fields (needs all 24)
   * into slot `c`, each as far as the bytes read allow.
   */
  function ReadVecSysdata(env: Env, s: State): (o: Step<()>)
    ensures Framed(s, o.st) && o.st.pos >= s.pos
    ensures o.res.Ok? ==> o.st.pos > s.pos
  {
    var s1 := s.(flag := Some(true), c := s.c + 1);
    var i := InitKind(env, s1, VecSysData);
    if i.res.Raised? then Fail(i.st, i.res.exc)
    else
      var (s2, b) := Read(env, i.st, SYS_DATA_SIZE);
      StoreSys(env, s2, b)
  }

  /**
   * The unpacking half of `read_vec_sysdata`: clock and status into slot
   * `c` as far as the `b` read allows. When the creation block was skipped
   * because a profile record made `mpltime`, the `error` column is
   * missing (only this kind creates it) and the status writes raise.
   */
  function StoreSys(env: Env, s: State, b: seq<byte>): (o: Step<()>)
    ensures Framed(s, o.st) && o.st.pos >= s.pos
    ensures o.res.Ok? ==> o.st.pos > s.pos && |b| == SYS_DATA_SIZE && SysError in Attrs(s.dtypes)
    ensures |b| < 8 ==> o == Fail(s, StructError)
    ensures o.res == Raised(AttributeError) ==> |b| == SYS_DATA_SIZE && SysError !in Attrs(s.dtypes)
  {
    if |b| < 8 then Fail(s, StructError)
    else
      var t := DecodeStamp(b[2..8], true);
      if !ValidStamp(t) then Fail(s, ValueError)
      else match NpIndex(s.c, |s.sys|)
      case None => Fail(s, IndexError)
      case Some(k) =>
        var s3 := s.(sys := s.sys[k := s.sys[k].(time := Some(t))]);
        if |b| != SYS_DATA_SIZE then Fail(s3, StructError)
        else if SysError !in Attrs(s.dtypes) then Fail(s3, AttributeError)
        else CheckSum(env, s3.(sys := s3.sys[k := s3.sys[k].(fields := Some(DecodeSysFields(b[8..24], env.e)))]), b)
  }

  /** The IMU variables the older reader creates per AHRS id (211 uses other names). */
  function ImuVarsFor(ahrs: byte): set<ImuVar>
  {
    if ahrs == 204 then {Accel, AngRt, Mag, OrientMat}
    else if ahrs == 210 then {Accel, AngRt, Mag}
    else if ahrs == 211 then {Angle, Veloc, MagVe}
    else {}
  }

  /** The only payload layout the older reader decodes: AHRS id 204. */
  const LAYOUT_204: seq<(ImuVar, nat, nat)> := [(Accel, 0, 12), (AngRt, 12, 24), (Mag, 24, 36), (OrientMat, 36, 72)]

  /**
   * `read_microstrain`: when the previous record was system data, clear
   * the flag and step `c` back; create the variables on the first IMU
   * record; only id 204 has a payload reader, and every other id reaches
   * the checksum with `byts` unbound.
   */
  function ReadMicrostrain(env: Env, s: State): (o: Step<()>)
    ensures Framed(s, o.st) && o.st.pos >= s.pos
    ensures o.res.Ok? ==> o.st.pos > s.pos
  {
    if s.flag.None? then Fail(s, AttributeError)
    else
      var s1 := if s.flag.value then s.(flag := Some(false), c := s.c - 1) else s;
      var (s2, b0) := Read(env, s1, IMU_HEAD_SIZE);
      if |b0| != IMU_HEAD_SIZE then Fail(s2, StructError)
      else AfterImuHead(env, s2, b0)
  }

  /** The rest of `read_microstrain` once the 4-byte record head `b0` is read. */
  function AfterImuHead(env: Env, s: State, b0: seq<byte>): (o: Step<()>)
    requires |b0| == IMU_HEAD_SIZE
    ensures Framed(s, o.st) && o.st.pos >= s.pos
    ensures o.res.Ok? ==> o.st.pos > s.pos
  {
    var ahrs := AhrsId(b0);
    var s3 := if Accel in s.imuVars then s else s.(dtypes := s.dtypes + [Microstrain]);
    if Accel !in s.imuVars && ImuVarsFor(ahrs) != {} && env.nSampGuess < 0 then Fail(s3, ValueError)
    else
      var s4 := if Accel in s.imuVars then s3 else s3.(imuVars := s3.imuVars + ImuVarsFor(ahrs));
      if ahrs != 204 then Fail(s4, UnboundLocalError)
      else
        var (s5, b) := Read(env, s4, 78);
        if |b| != 78 then Fail(s5, StructError)
        else
          var w := WriteImu(s5.imu, s5.imuVars, AttributeError, s5.c, b, LAYOUT_204);
          var s6 := s5.(imu := w.0);
          if w.1.Some? then Fail(s6, w.1.value)
          else CheckSum(env, s6, b0 + b)
  }

  /** `read_vec_hdr`: 38 bytes, a valid clock, and the checksum; nothing is kept. */
  function ReadVecHdr(env: Env, s: State): (o: Step<()>)
    ensures Framed(s, o.st) && o.st.pos >= s.pos
    ensures o.res.Ok? ==> o.st.pos > s.pos
  {
    var (s1, b) := Read(env, s, VEC_HDR_SIZE);
    if |b| != VEC_HDR_SIZE then Fail(s1, StructError)
    else if !ValidStamp(DecodeStamp(b[2..8], true)) then Fail(s1, ValueError)
    else CheckSum(env, s1, b)
  }

  /** `read_vec_checkdata`: a 6-byte head giving `n`, then `3 n` bytes; an odd total fails the checksum's unpack. */
  function ReadVecCheckdata(env: Env, s: State): (o: Step<()>)
    ensures Framed(s, o.st) && o.st.pos >= s.pos
    ensures o.res.Ok? ==> o.st.pos > s.pos
  {
    var (s1, b0) := Read(env, s, CHECK_HEAD_SIZE);
    if |b0| != CHECK_HEAD_SIZE then Fail(s1, StructError)
    else
      var n := U16At(b0, 2, env.e);
      var (s2, b1) := Read(env, s1, 3 * n);
      if |b1| != 3 * n then Fail(s2, StructError)
      else CheckSum(env, s2, b0 + b1)
  }

  /**
   * `read_awac_profile`: read the record, advance `c`, then write the clock
   * (8 bytes and a valid date), the sensor head (28 bytes) and the bins
   * (`116 + 9 nbins` bytes) into slot `c`, each as far as the bytes allow.
   */
  function ReadAwacProfile(env: Env, s: State): (o: Step<()>)
    ensures Framed(s, o.st) && o.st.pos >= s.pos
    ensures o.res.Ok? ==> o.st.pos > s.pos
  {
    var nbins := s.config.nbins;
    var i := InitKind(env, s, AwacProfile);
    if i.res.Raised? then Fail(i.st, i.res.exc)
    else
      var (s1, b) := Read(env, i.st, ProfileSize(nbins));
      StoreProfile(env, s1.(c := s1.c + 1), b)
  }

  /**
   * The unpacking half of `read_awac_profile`, after `c` advances: clock,
   * sensor head and bins into slot `c`. When the creation block was
   * skipped because system data made `temp`, the first head column
   * `Error` is missing (only this kind creates it) and the head writes raise.
   */
  function StoreProfile(env: Env, s: State, b: seq<byte>): (o: Step<()>)
    ensures Framed(s, o.st) && o.st.pos >= s.pos
    ensures o.res.Ok? ==> o.st.pos > s.pos && |b| >= ProfileSize(s.config.nbins) - s.config.nbins % 2 && ProfileError in Attrs(s.dtypes)
    ensures |b| < 8 ==> o == Fail(s, StructError)
    ensures o.res == Raised(AttributeError) ==> |b| >= 28 && ProfileError !in Attrs(s.dtypes)
  {
    var nbins := s.config.nbins;
    if |b| < 8 then Fail(s, StructError)
    else
      var t := DecodeStamp(b[2..8], true);
      if !ValidStamp(t) then Fail(s, ValueError)
      else match NpIndex(s.c, |s.prof|)
      case None => Fail(s, IndexError)
      case Some(k) =>
        var s3 := s.(prof := s.prof[k := s.prof[k].(time := Some(t))]);
        if |b| < 28 then Fail(s3, StructError)
        else if ProfileError !in Attrs(s.dtypes) then Fail(s3, AttributeError)
        else
          var s4 := s3.(prof := s3.prof[k := s3.prof[k].(head := Some(DecodeProfileHead(b[8..28], env.e)))]);
          if |b| < 116 + 9 * nbins then Fail(s4, StructError)
          else
            var bins := DecodeBins(b[116..116 + 9 * nbins], nbins, env.e);
            CheckSum(env, s4.(prof := s4.prof[k := s4.prof[k].(bins := Some(bins))]), b)
  }

  /** `read_hw_cfg`: 44 bytes; the serial number is kept as bytes. */
  function ReadHwCfg(env: Env, s: State): (o: Step<()>)
    ensures Framed(s, o.st) && o.st.pos >= s.pos
    ensures o.res.Ok? ==> o.st.pos > s.pos
  {
    var (s1, b) := Read(env, s, HW_CFG_SIZE);
    if |b| != HW_CFG_SIZE then Fail(s1, StructError)
    else CheckSum(env, s1.(config := s1.config.(serial := HwSerial(b))), b)
  }

  /** `read_head_cfg`: 220 bytes and the checksum. */
  function ReadHeadCfg(env: Env, s: State): (o: Step<()>)
    ensures Framed(s, o.st) && o.st.pos >= s.pos
    ensures o.res.Ok? ==> o.st.pos > s.pos
  {
    var (s1, b) := Read(env, s, HEAD_CFG_SIZE);
    if |b| != HEAD_CFG_SIZE then Fail(s1, StructError)
    else CheckSum(env, s1, b)
  }

  /** `read_user_cfg`: 508 bytes; the configuration fields in order, the coordinate index limited to three labels. */
  function ReadUserCfg(env: Env, s: State): (o: Step<()>)
    ensures Framed(s, o.st) && o.st.pos >= s.pos
    ensures o.res.Ok? ==> o.st.pos > s.pos
  {
    var (s1, b) := Read(env, s, USER_CFG_SIZE);
    if |b| != USER_CFG_SIZE then Fail(s1, StructError)
    else
      var cfg1 := s1.config.(avgInterval := UserAvgInterval(b, env.e));
      var coord := UserCoordIndex(b, env.e);
      if CoordLabel(coord).None? then Fail(s1.(config := cfg1), IndexError)
      else
        var cfg2 := cfg1.(coordAxes := coord, nbins := UserNBins(b, env.e),
                          measInterval := UserMeasInterval(b, env.e), nburst := UserNBurst(b, env.e));
        CheckSum(env, s1.(config := cfg2), b)
  }

  function Routine(env: Env, s: State, k: Kind): (o: Step<()>)
    ensures Framed(s, o.st) && o.st.pos >= s.pos
    ensures o.res.Ok? ==> o.st.pos > s.pos
  {
    match k
    case UserCfg => ReadUserCfg(env, s)
    case HeadCfg => ReadHeadCfg(env, s)
    case HwCfg => ReadHwCfg(env, s)
    case VecCheckData => ReadVecCheckdata(env, s)
    case VecData => ReadVecData(env, s)
    case VecSysData => ReadVecSysdata(env, s)
    case VecHdr => ReadVecHdr(env, s)
    case Microstrain => ReadMicrostrain(env, s)
    case AwacProfile => ReadAwacProfile(env, s)
  }

  /**
   * `readnext`: 1 when the id cannot be unpacked, 2 when the routine's
   * unpacking fails, 10 (after a 2-byte rewind) for a code outside
   * `fun_map`, `None` when the routine completes; other exceptions pass.
   */
  function ReadNext(env: Env, s: State): (o: Step<Option<int>>)
    ensures Framed(s, o.st) && o.st.pos >= s.pos
    ensures o.res.Ok? ==> o.res.value in {None, Some(1), Some(2), Some(10)}
    ensures o.res.Ok? && o.res.value.None? ==> s.pos + 2 <= |env.file| && o.st.pos > s.pos
    ensures o.res.Ok? && o.res.value == Some(10) ==> s.pos + 2 <= |env.file|
  {
    var r := ReadId(env, s);
    if r.res.Raised? then (if r.res.exc == StructError then Out(r.st, Ok(Some(1))) else Fail(r.st, r.res.exc))
    else match KindOfCode(r.res.value)
    case None => Out(r.st.(pos := r.st.pos - 2), Ok(Some(10)))
    case Some(k) => Dispatch(env, r.st, k)
  }

  /** A known record: `None` when its routine completes, 2 when it fails to unpack, otherwise its exception. */
  function Dispatch(env: Env, s: State, k: Kind): (o: Step<Option<int>>)
    ensures Framed(s, o.st) && o.st.pos >= s.pos
    ensures o.res.Ok? ==> o.res.value == None || o.res.value == Some(2)
    ensures o.res.Ok? && o.res.value.None? ==> o.st.pos > s.pos
  {
    var o := Routine(env, s, k);
    if o.res.Raised? then (if o.res.exc == StructError then Out(o.st, Ok(Some(2))) else Fail(o.st, o.res.exc))
    else Out(o.st, Ok(None))
  }

  // ---------------------------------------------------------------------
  // The main loop.

  /**
   * The `while not retval` loop of `readfile`: it ends on `c == nlines`, on
   * a return code 1 or 2, or once `c >= _npings`; a code 10 is followed by
   * `findnext()` and the loop goes on. Returns the last `retval`.
   */
  function ReadLoop(env: Env, s: State, nlines: Option<int>): (o: Step<Option<int>>)
    ensures Framed(s, o.st)
    ensures o.res.Ok? ==> o.res.value in {None, Some(1), Some(2)}
    decreases Sync.Remaining(env.file, s.pos)
  {
    if nlines == Some(s.c) then Out(s, Ok(None))
    else
      var r := ReadNext(env, s);
      if r.res.Raised? then r
      else
        var (s2, retval) := if r.res.value == Some(10) then (FindNext(env, r.st, true).0, None) else (r.st, r.res.value);
        if env.npings.Some? && s2.c >= env.npings.value then Out(s2, Ok(retval))
        else if retval.Some? then Out(s2, Ok(retval))
        else ReadLoop(env, s2, nlines)
  }

  /** Every column cut to `[:c]`. */
  function Cropped(s: State, c: int): (t: State)
    ensures Framed(t, t) && t.c == s.c
  {
    s.(vec := s.vec[..SliceStop(c, |s.vec|)], sys := s.sys[..SliceStop(c, |s.sys|)],
       imu := s.imu[..SliceStop(c, |s.imu|)], prof := s.prof[..SliceStop(c, |s.prof|)])
  }

  /** `readfile(nlines)`: the loop, `c -= 1` if it ended on code 2, then every column cut to `[:c]`. */
  function ReadFile(env: Env, s: State, nlines: Option<int>): (o: Step<()>)
    ensures o.res.Raised? ==> o.st == ReadLoop(env, s, nlines).st && ReadLoop(env, s, nlines).res == Raised(o.res.exc)
    ensures o.res.Ok? ==> |o.st.vec| <= |s.vec| && |o.st.sys| <= |s.sys| && |o.st.imu| <= |s.imu| && |o.st.prof| <= |s.prof|
    ensures nlines == Some(s.c) ==> o.res.Ok? && o.st.c == s.c
  {
    FinishFile(ReadLoop(env, s, nlines))
  }

  /** What `readfile` does once its loop has ended as `l`. */
  function FinishFile(l: Step<Option<int>>): (o: Step<()>)
    ensures l.res.Raised? ==> o == Fail(l.st, l.res.exc)
    ensures l.res.Ok? ==> o.res.Ok? && o.st.c == (if l.res.value == Some(2) then l.st.c - 1 else l.st.c)
  {
    if l.res.Raised? then Fail(l.st, l.res.exc)
    else
      var c := if l.res.value == Some(2) then l.st.c - 1 else l.st.c;
      Out(Cropped(l.st.(c := c), c), Ok(()))
  }

  // ---------------------------------------------------------------------
  // Header phase and initialisation.

  /**
   * `findnextid(id)`: call `findnext()` (with the checksum test) until it
   * returns `id`; a scan that runs out makes `int(None, 0)` raise.
   */
  function FindNextId(env: Env, s: State, id: byte): (o: Step<nat>)
    ensures o.st == s.(pos := o.st.pos) && o.st.pos >= s.pos
    ensures o.res.Ok? ==> o.res.value == o.st.pos
    ensures o.res.Raised? ==> o.res.exc == TypeError
    decreases Sync.Remaining(env.file, s.pos)
  {
    var (s1, code) := FindNext(env, s, true);
    if code.None? then Fail(s1, TypeError)
    else if code.value == id then Out(s1, Ok(s1.pos))
    else FindNextId(env, s1, id)
  }

  /** `k` further calls of `findnextid(id)`. */
  function FindNextIdTimes(env: Env, s: State, id: byte, k: nat): (o: Step<()>)
    ensures o.st == s.(pos := o.st.pos) && o.st.pos >= s.pos
    ensures o.res.Raised? ==> o.res.exc == TypeError
    decreases k
  {
    if k == 0 then Out(s, Ok(()))
    else
      var r := FindNextId(env, s, id);
      if r.res.Raised? then Fail(r.st, r.res.exc) else FindNextIdTimes(env, r.st, id, k - 1)
  }

  /**
   * `code_spacing(id, iternum)`: the offset of the first record of type
   * `id`, then `iternum` more calls, and the integer average
   * `(pos - p0) / iternum`; `iternum == 0` divides by zero.
   */
  function CodeSpacing(env: Env, s: State, id: byte, iternum: nat): (o: Step<nat>)
    ensures o.st == s.(pos := o.st.pos)
    ensures o.res.Raised? ==> o.res.exc == TypeError || (iternum == 0 && o.res.exc == ZeroDivisionError)
  {
    var p := FindNextId(env, s, id);
    if p.res.Raised? then Fail<nat>(p.st, p.res.exc)
    else SpacingAfter(env, p.st, p.res.value, id, iternum)
  }

  /** The `iternum` further calls of `code_spacing` after the first record, found at `p0`, and the average. */
  function SpacingAfter(env: Env, s: State, p0: nat, id: byte, iternum: nat): (o: Step<nat>)
    requires p0 <= s.pos
    ensures o.st == s.(pos := o.st.pos)
    ensures o.res.Raised? ==> o.res.exc == TypeError || (iternum == 0 && o.res.exc == ZeroDivisionError)
  {
    var l := FindNextIdTimes(env, s, id, iternum);
    if l.res.Raised? then Fail<nat>(l.st, l.res.exc)
    else if iternum == 0 then Fail<nat>(l.st, ZeroDivisionError)
    else
      Out(l.st, Ok(Average(l.st.pos - p0, iternum)))
  }

  /** Python 2's integer division of a byte span `d` by a positive count. */
  function Average(d: nat, k: nat): nat
    requires k > 0
  {
    d / k
  }

  /** The byte-order probe with raw reads: a short file fails in `unpack`. */
  function DetectEndian(file: seq<byte>): (r: Res<Endian>)
    ensures r == Ok(Little) <==> |file| >= 4 && U16At(file, 0, Little) == 1445 && U16At(file, 2, Little) == 24
  {
    var b := Avail(file, 0, 4);
    if |b| < 4 then Raised(StructError)
    else if U16At(b, 0, Little) == 1445 && U16At(b, 2, Little) == 24 then Ok(Little)
    else
      var b2 := Avail(file, 4, 4);
      if |b2| < 4 then Raised(StructError)
      else if U16At(b2, 0, Big) == 1445 && U16At(b2, 2, Big) == 24 then Ok(Big)
      else Raised(WrongFileType)
  }

  /** The mandatory hardware, head and user records, in that order; any failure is fatal here. */
  function ReadHeader(env: Env, s: State): (o: Step<()>)
    ensures Framed(s, o.st)
    ensures o.res.Ok? ==> o.st.pos > s.pos
  {
    var i1 := ReadId(env, s);
    if i1.res.Raised? then Fail(i1.st, i1.res.exc)
    else if i1.res.value != CodeOf(HwCfg) then Fail(i1.st, NotNortek)
    else
      var h := ReadHwCfg(env, i1.st);
      if h.res.Raised? then h
      else
        var i2 := ReadId(env, h.st);
        if i2.res.Raised? then Fail(i2.st, i2.res.exc)
        else if i2.res.value != CodeOf(HeadCfg) then Fail(i2.st, NotNortek)
        else
          var d := ReadHeadCfg(env, i2.st);
          if d.res.Raised? then d
          else
            var i3 := ReadId(env, d.st);
            if i3.res.Raised? then Fail(i3.st, i3.res.exc)
            else if i3.res.value != CodeOf(UserCfg) then Fail(i3.st, NotNortek)
            else ReadUserCfg(env, i3.st)
  }

  /**
   * `init_ADV` / `init_AWAC`: the capacity guess from the average spacing
   * of the instrument's regular record over 50 records, `filesize / dlta + 1`,
   * times the samples per second `512 / AvgInterval` for a Vector.
   */
  function SizeGuess(env: Env, s: State, inst: Inst): (r: Res<int>)
    ensures r.Raised? ==> r.exc == TypeError || r.exc == ZeroDivisionError
    ensures r.Ok? ==> r.value >= 0 && (inst == Awac ==> r.value >= 1)
  {
    var code := if inst == Adv then CodeOf(VecSysData) else CodeOf(AwacProfile);
    GuessOf(inst, |env.file|, CodeSpacing(env, s, code, 50).res, s.config.avgInterval)
  }

  /** The guess from the file size, the outcome of `code_spacing` and the average interval. */
  function GuessOf(inst: Inst, filesize: nat, sp: Res<nat>, avg: uint16): (r: Res<int>)
    ensures r.Raised? && sp.Ok? ==> r.exc == ZeroDivisionError && (avg == 0 || sp.value == 0)
    ensures r.Ok? && inst == Awac ==> sp.Ok? && sp.value > 0 && r.value == filesize / sp.value + 1
    ensures r.Raised? && sp.Raised? ==> r.exc == sp.exc
    ensures r.Ok? ==> r.value >= 0 && (inst == Awac ==> r.value >= 1)
  {
    if sp.Raised? then Raised(sp.exc)
    else
      var dlta := sp.value;
      if inst == Adv then
        (if avg == 0 then Raised(ZeroDivisionError)
         else if dlta == 0 then Raised(ZeroDivisionError)
         else
           var records: nat := filesize / dlta + 1;
           var perRecord: nat := 512 / avg;
           Ok(records * perRecord))
      else if dlta == 0 then Raised(ZeroDivisionError)
      else
        var records: nat := filesize / dlta + 1;
        Ok(records)
  }

  function Fresh(n: nat): (s: State)
    ensures |s.vec| == n && |s.sys| == n && |s.imu| == n && |s.prof| == n
  {
    State(0, -1, [], None, [], NoConfig, {},
          seq(n, _ => None), seq(n, _ => SysRow(None, None)), seq(n, _ => map[]),
          seq(n, _ => ProfileRow(None, None, None)))
  }

  /**
   * `vec_reader.__init__`: byte order, header, instrument, capacity guess
   * (`filesize / dlta + 1`, times `fs = 512 / AvgInterval` for a Vector),
   * `npings + 1` when a ping count is given, and `c == -1` at the offset
   * after the header. An unknown serial prefix leaves the config type at
   * its default, and looking up its `init_` routine raises `AttributeError`.
   */
  function Open(file: seq<byte>, endian: Option<Endian>, doChecksum: bool, npings: Option<int>): (r: Res<(Env, State)>)
    ensures r.Ok? ==> Shaped(r.value.0, r.value.1) && r.value.1.c == -1 && r.value.1.flag.None?
    ensures r.Ok? ==> r.value.0.file == file && r.value.0.npings == npings
    ensures r.Ok? && npings.Some? ==> r.value.0.nSampGuess == npings.value + 1
  {
    var e := if endian.Some? then Ok(endian.value) else DetectEndian(file);
    if e.Raised? then Raised(e.exc)
    else
      var env0 := Env(file, e.value, doChecksum, 0, npings);
      var h := ReadHeader(env0, Fresh(0));
      if h.res.Raised? then Raised(h.res.exc)
      else match SerialInst(h.st.config.serial)
      case None => Raised(AttributeError)
      case Some(inst) =>
        var guess := SizeGuess(env0, h.st, inst);
        if guess.Raised? then Raised(guess.exc)
        else
          var n := if npings.Some? then npings.value + 1 else guess.value;
          var env := env0.(nSampGuess := n);
          Ok((env, Fresh(Capacity(env)).(pos := h.st.pos, config := h.st.config, thisId := h.st.thisId)))
  }
}
