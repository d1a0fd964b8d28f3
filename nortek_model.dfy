/**
 * The newer Nortek reader (`NortekReader`, Python 3) as step functions on
 * a reader state. Every method of the reader becomes a function from the
 * fixed environment and the state before the call to the state after it
 * and the way the call ended (a value or an exception), so that raising
 * part-way through a routine leaves exactly the effects made before the
 * raise.
 */
module NortekModel {
  import opened Wire
  import opened Helpers
  import opened Records
  import opened Py
  import Sync

  /**
   * What stays fixed while the data records are read: the file, its byte
   * order, the checksum switch, the column capacity `n_samp_guess` and the
   * ping limit `_npings`.
   */
  datatype Env = Env(file: seq<byte>, e: Endian, doChecksum: bool, nSampGuess: nat, npings: Option<int>)

  /**
   * The reader's mutable context: the file offset, the sample index `c`,
   * the history `_lastread`, the list `_dtypes` of initialised record
   * kinds, `_ahrsid`, the `has_imu` flag, the configuration, the IMU
   * variables created so far, and the sample columns.
   */
  datatype State = State(
    pos: nat,
    c: int,
    lastread: seq<Option<Kind>>,
    dtypes: seq<Kind>,
    ahrsid: Option<byte>,
    hasImu: bool,
    config: Config,
    imuVars: set<ImuVar>,
    vec: seq<Option<VecSample>>,
    sys: seq<SysRow>,
    imu: seq<ImuRow>,
    prof: seq<ProfileRow>,
    burstStart: seq<bool>)

  type Step<T> = Out<State, T>

  function Fail<T>(st: State, exc: Exc): Step<T>
  {
    Out(st, Raised(exc))
  }

  /** Every column has the capacity the reader allocated, and the history has its five slots. */
  predicate Shaped(env: Env, s: State)
  {
    && |s.lastread| == 5
    && |s.vec| == env.nSampGuess && |s.sys| == env.nSampGuess && |s.imu| == env.nSampGuess
    && |s.prof| == env.nSampGuess && |s.burstStart| == env.nSampGuess
  }

  /** The history and every column keep their lengths. */
  predicate Framed(s: State, t: State)
  {
    && t.lastread == s.lastread
    && |t.vec| == |s.vec| && |t.sys| == |s.sys| && |t.imu| == |s.imu|
    && |t.prof| == |s.prof| && |t.burstStart| == |s.burstStart|
  }

  /** Two states that differ at most in their offset. */
  predicate OnlyPosMoved(s: State, t: State)
  {
    t == s.(pos := t.pos)
  }

  // ---------------------------------------------------------------------
  // Stream primitives.

  /** `read(n)`: the next `n` bytes, or `EOFError` after a short read that still moved the offset. */
  function Read(env: Env, s: State, n: nat): (o: Step<seq<byte>>)
    ensures OnlyPosMoved(s, o.st) && o.st.pos >= s.pos
    ensures o.res.Ok? <==> |Avail(env.file, s.pos, n)| == n
    ensures o.res.Ok? ==> |o.res.value| == n && o.st.pos == s.pos + n
    ensures o.res.Ok? && n > 0 ==> s.pos + n <= |env.file| && o.res.value == env.file[s.pos..s.pos + n]
    ensures o.res.Raised? ==> o.res.exc == EofError && o.st.pos == Sync.EndAfterShortRead(env.file, s.pos)
  {
    var b := Avail(env.file, s.pos, n);
    var st := s.(pos := s.pos + |b|);
    if |b| == n then Out(st, Ok(b)) else Fail(st, EofError)
  }

  /**
   * `findnext(do_cs)`: on success the offset is left on the sync word found
   * and its type code is returned; a scan that runs out raises `EOFError`.
   */
  function FindNext(env: Env, s: State, doCs: bool): (o: Step<byte>)
    ensures OnlyPosMoved(s, o.st) && o.st.pos >= s.pos
    ensures o.res.Ok? ==> o.st.pos + 2 <= |env.file|
    ensures o.res.Ok? && doCs ==> o.st.pos >= s.pos + 2
    ensures o.res.Raised? ==> o.res.exc == EofError
  {
    match Sync.FindNext(env.file, env.e, s.pos, doCs)
    case Exhausted(end) => Fail(s.(pos := end), EofError)
    case Found(at, code) => Out(s.(pos := at), Ok(code))
  }

  /**
   * `read_id`: the type code of the record at the offset, resynchronising
   * through `findnext(do_cs=False)` when the first byte is not the sync
   * byte (and then stepping over the sync word found).
   */
  function ReadId(env: Env, s: State): (o: Step<byte>)
    ensures OnlyPosMoved(s, o.st) && o.st.pos >= s.pos
    ensures o.res.Ok? ==> s.pos + 2 <= |env.file| && o.st.pos >= s.pos + 2 && o.st.pos <= |env.file|
    ensures o.res.Raised? ==> o.res.exc == EofError
  {
    var r := Read(env, s, 2);
    if r.res.Raised? then Fail(r.st, r.res.exc)
    else if r.res.value[0] != SYNC then
      var f := FindNext(env, r.st, false);
      if f.res.Raised? then Fail(f.st, f.res.exc)
      else Out(f.st.(pos := f.st.pos + 2), f.res)
    else Out(r.st, Ok(r.res.value[1]))
  }

  /**
   * `checksum(byts)`: with the test switched on, the repeat count
   * `(1 + len(byts) / 2)` is a float under Python 3 and the call raises
   * `TypeError` before reading anything; switched off, it skips the
   * 2-byte checksum word.
   */
  function CheckSum(env: Env, s: State): (o: Step<()>)
  {
    if env.doChecksum then Fail(s, TypeError) else Out(s.(pos := s.pos + 2), Ok(()))
  }

  // ---------------------------------------------------------------------
  // Record routines. Each returns the routine's Python result: `None`, or
  // `Some(10)` for the "unrecognised" signal.

  /** `read_vec_data`: decode a velocity sample into slot `c`, then advance `c`. */
  function ReadVecData(env: Env, s: State): (o: Step<Option<int>>)
    ensures Framed(s, o.st)
    ensures o.res.Ok? ==> o.st.pos > s.pos && o.res.value.None?
  {
    var s1 := if VecData in s.dtypes then s else s.(dtypes := s.dtypes + [VecData]);
    var r := Read(env, s1, VEC_DATA_SIZE);
    if r.res.Raised? then Fail(r.st, r.res.exc)
    else StoreVec(env, r.st, r.res.value)
  }

  /** The rest of `read_vec_data` once its bytes `b` are read. */
  function StoreVec(env: Env, s: State, b: seq<byte>): (o: Step<Option<int>>)
    requires |b| == VEC_DATA_SIZE
    ensures Framed(s, o.st) && o.st.pos >= s.pos
    ensures o.res.Ok? ==> o.res.value.None?
  {
    match NpSet(s.vec, s.c, Some(DecodeVec(b, env.e)))
    case None => Fail(s, IndexError)
    case Some(col) =>
      var k := CheckSum(env, s.(vec := col));
      if k.res.Raised? then Fail(k.st, k.res.exc)
      else Out(k.st.(c := k.st.c + 1), Ok(None))
  }

  /**
   * `read_vec_sysdata`: mark a burst start at `c` when the history begins
   * with check data then header, then decode the clock and the status
   * fields into slot `c`; `c` itself is left alone.
   */
  function ReadVecSysdata(env: Env, s: State): (o: Step<Option<int>>)
    ensures Framed(s, o.st)
    ensures o.res.Ok? ==> o.st.pos > s.pos && o.res.value.None?
  {
    var marked := if IsBurstStart(s.lastread) then NpSet(s.burstStart, s.c, true) else Some(s.burstStart);
    if marked.None? then Fail(s, IndexError)
    else
      var s1 := s.(burstStart := marked.value);
      var s2 := if VecSysData in s1.dtypes then s1 else s1.(dtypes := s1.dtypes + [VecSysData]);
      var r := Read(env, s2, SYS_DATA_SIZE);
      if r.res.Raised? then Fail(r.st, r.res.exc)
      else StoreSys(env, r.st, r.res.value)
  }

  /** The rest of `read_vec_sysdata` once its bytes `b` are read. */
  function StoreSys(env: Env, s: State, b: seq<byte>): (o: Step<Option<int>>)
    requires |b| == SYS_DATA_SIZE
    ensures Framed(s, o.st) && o.st.pos >= s.pos
    ensures o.res.Ok? ==> o.res.value.None?
    ensures o.res.Ok? ==> !env.doChecksum && o.st == s.(sys := o.st.sys, pos := s.pos + 2)
    ensures o.res.Raised? && o.res.exc != TypeError ==> o.st == s
  {
    var t := DecodeStamp(b[2..8], true);
    if !ValidStamp(t) then Fail(s, ValueError)
    else match NpSet(s.sys, s.c, SysRow(Some(t), Some(DecodeSysFields(b[8..24], env.e))))
    case None => Fail(s, IndexError)
    case Some(col) =>
      var k := CheckSum(env, s.(sys := col));
      if k.res.Raised? then Fail(k.st, k.res.exc) else Out(k.st, Ok(None))
  }

  /** `self._lastread[:2] == ['vec_checkdata', 'vec_hdr']`. */
  predicate IsBurstStart(lastread: seq<Option<Kind>>)
  {
    |lastread| >= 2 && lastread[0] == Some(VecCheckData) && lastread[1] == Some(VecHdr)
  }

  /** The IMU variables created on the first IMU record with a given AHRS id. */
  function ImuVarsFor(ahrs: byte): set<ImuVar>
  {
    if ahrs == 195 then {Accel, AngRt, OrientMat}
    else if ahrs == 204 then {Accel, AngRt, Mag, OrientMat}
    else if ahrs == 210 then {Accel, AngRt, Mag}
    else if ahrs == 211 then {AngRt, Accel, Mag}
    else {}
  }

  /**
   * The IMU payload layout per AHRS id: the variables written, in order,
   * with the byte range of the payload each receives (3 floats for a
   * vector, 9 for a matrix). Ids without a layout are not read.
   */
  function ImuLayout(ahrs: byte): (l: Option<(nat, seq<(ImuVar, nat, nat)>)>)
    ensures l.Some? ==> forall j :: 0 <= j < |l.value.1| ==> l.value.1[j].1 <= l.value.1[j].2 <= l.value.0
  {
    if ahrs == 195 then Some((64, [(AngRt, 0, 12), (Accel, 12, 24), (OrientMat, 24, 60)]))
    else if ahrs == 204 then Some((78, [(Accel, 0, 12), (AngRt, 12, 24), (Mag, 24, 36), (OrientMat, 36, 72)]))
    else if ahrs == 211 then Some((42, [(AngRt, 0, 12), (Accel, 12, 24), (Mag, 24, 36)]))
    else None
  }

  /**
   * `read_microstrain`: step `c` back unless it is 0, read the record head,
   * note the AHRS id, create the IMU variables on the first IMU record, and
   * then either write the payload into slot `c` and advance `c`, or, for an
   * id without a layout, rewind 2 bytes and return 10, which leaves the
   * offset 2 bytes into the 4-byte record head, past the id bytes.
   */
  function ReadMicrostrain(env: Env, s: State): (o: Step<Option<int>>)
    ensures Framed(s, o.st)
    ensures o.res.Ok? ==> o.st.pos > s.pos && (o.res.value.None? || o.res.value == Some(10))
    ensures o.res == Ok(Some(10)) ==> o.st.pos == s.pos + IMU_HEAD_SIZE - 2
  {
    var s1 := if s.c == 0 then s else s.(c := s.c - 1);
    var r := Read(env, s1, IMU_HEAD_SIZE);
    if r.res.Raised? then Fail(r.st, r.res.exc)
    else AfterImuHead(env, r.st, AhrsId(r.res.value))
  }

  /**
   * The rest of `read_microstrain` once the record head is read: keep a
   * known AHRS id, note that IMU data is present, register the IMU kind
   * and its variables on the first IMU record, then read the payload (or,
   * for an id without a layout, step the offset back 2 bytes).
   */
  function AfterImuHead(env: Env, s: State, ahrs: byte): (o: Step<Option<int>>)
    requires s.pos >= 2
    ensures Framed(s, o.st)
    ensures o.res.Ok? ==> o.st.pos + 2 >= s.pos && (o.res.value.None? || o.res.value == Some(10))
    ensures o.res == Ok(Some(10)) ==> o.st.pos == s.pos - 2
    ensures o.res.Ok? && o.res.value.None? ==> o.st.pos > s.pos
  {
    var s2 := s.(ahrsid := if ahrs in {195, 204, 210, 211} then Some(ahrs) else s.ahrsid, hasImu := true);
    var s3 := if Accel in s2.imuVars then s2
              else s2.(dtypes := s2.dtypes + [Microstrain], imuVars := s2.imuVars + ImuVarsFor(ahrs));
    ReadImuPayload(env, s3, ahrs)
  }

  /**
   * The rest of `read_microstrain` once the record head is read: write the
   * payload into slot `c` and advance `c`, or, for an id without a layout,
   * step the offset back 2 bytes (to 4 bytes past the record's sync word,
   * not onto it) and return 10.
   */
  function ReadImuPayload(env: Env, s: State, ahrs: byte): (o: Step<Option<int>>)
    requires s.pos >= 2
    ensures Framed(s, o.st)
    ensures o.res.Ok? ==> o.st.pos + 2 >= s.pos && (o.res.value.None? || o.res.value == Some(10))
    ensures o.res == Ok(Some(10)) ==> o.st.pos == s.pos - 2 && ImuLayout(ahrs).None?
    ensures o.res.Ok? && o.res.value.None? ==> o.st.pos > s.pos
  {
    match ImuLayout(ahrs)
    case None => Out(s.(pos := s.pos - 2), Ok(Some(10)))
    case Some(layout) =>
      var p := Read(env, s, layout.0);
      if p.res.Raised? then Fail(p.st, p.res.exc)
      else
        var w := WriteImu(p.st.imu, p.st.imuVars, KeyError, p.st.c, p.res.value, layout.1);
        var s4 := p.st.(imu := w.0);
        if w.1.Some? then Fail(s4, w.1.value)
        else
          var k := CheckSum(env, s4);
          if k.res.Raised? then Fail(k.st, k.res.exc)
          else Out(k.st.(c := k.st.c + 1), Ok(None))
  }

  /**
   * `read_vec_hdr`: the header's clock must be a valid date and its two
   * text fields (byte 13, bytes 17..38) must decode as UTF-8; nothing is kept.
   */
  function ReadVecHdr(env: Env, s: State): (o: Step<Option<int>>)
    ensures Framed(s, o.st)
    ensures o.res.Ok? ==> o.st.pos > s.pos && o.res.value.None?
  {
    var r := Read(env, s, VEC_HDR_SIZE);
    if r.res.Raised? then Fail(r.st, r.res.exc)
    else
      var b := r.res.value;
      if !ValidStamp(DecodeStamp(b[2..8], true)) then Fail(r.st, ValueError)
      else if !ValidUtf8(b[13..14]) || !ValidUtf8(b[17..38]) then Fail(r.st, UnicodeDecodeError)
      else
        var k := CheckSum(env, r.st);
        if k.res.Raised? then Fail(k.st, k.res.exc) else Out(k.st, Ok(None))
  }

  /** `read_vec_checkdata`: a 6-byte head giving the sample count `n`, then `3 n` amplitude bytes. */
  function ReadVecCheckdata(env: Env, s: State): (o: Step<Option<int>>)
    ensures Framed(s, o.st)
    ensures o.res.Ok? ==> o.st.pos > s.pos && o.res.value.None?
  {
    var r := Read(env, s, CHECK_HEAD_SIZE);
    if r.res.Raised? then Fail(r.st, r.res.exc)
    else
      var a := Read(env, r.st, 3 * U16At(r.res.value, 2, env.e));
      if a.res.Raised? then Fail(a.st, a.res.exc)
      else
        var k := CheckSum(env, a.st);
        if k.res.Raised? then Fail(k.st, k.res.exc) else Out(k.st, Ok(None))
  }

  /**
   * `read_awac_profile`: read `116 + 9 nbins + nbins mod 2` bytes, decode
   * the clock, the sensor head and the bins into slot `c`, advance `c`.
   */
  function ReadAwacProfile(env: Env, s: State): (o: Step<Option<int>>)
    ensures Framed(s, o.st)
    ensures o.res.Ok? ==> o.st.pos > s.pos && o.res.value.None?
  {
    var nbins := s.config.nbins;
    var s1 := if AwacProfile in s.dtypes then s else s.(dtypes := s.dtypes + [AwacProfile]);
    ProfileSizeEven(nbins);
    var r := Read(env, s1, ProfileSize(nbins));
    if r.res.Raised? then Fail(r.st, r.res.exc)
    else StoreProfile(env, r.st, r.res.value)
  }

  /** The rest of `read_awac_profile` once its bytes `b` are read. */
  function StoreProfile(env: Env, s: State, b: seq<byte>): (o: Step<Option<int>>)
    requires |b| == ProfileSize(s.config.nbins)
    ensures Framed(s, o.st) && o.st.pos >= s.pos
    ensures o.res.Ok? ==> o.res.value.None?
    ensures o.res.Ok? ==> !env.doChecksum && o.st == s.(prof := o.st.prof, pos := s.pos + 2, c := s.c + 1)
    ensures o.res.Raised? && o.res.exc != TypeError ==> o.st == s
  {
    var nbins := s.config.nbins;
    var t := DecodeStamp(b[2..8], true);
    if !ValidStamp(t) then Fail(s, ValueError)
    else
      var row := ProfileRow(Some(t), Some(DecodeProfileHead(b[8..28], env.e)),
                            Some(DecodeBins(b[116..116 + 9 * nbins], nbins, env.e)));
      match NpSet(s.prof, s.c, row)
      case None => Fail(s, IndexError)
      case Some(col) =>
        var k := CheckSum(env, s.(prof := col));
        if k.res.Raised? then Fail(k.st, k.res.exc)
        else Out(k.st.(c := k.st.c + 1), Ok(None))
  }

  /** `read_hw_cfg`: the serial number, then the firmware text, must decode as UTF-8. */
  function ReadHwCfg(env: Env, s: State): (o: Step<Option<int>>)
    ensures Framed(s, o.st)
    ensures o.res.Ok? ==> o.st.pos > s.pos && o.res.value.None?
  {
    var r := Read(env, s, HW_CFG_SIZE);
    if r.res.Raised? then Fail(r.st, r.res.exc)
    else
      var b := r.res.value;
      if !ValidUtf8(HwSerial(b)) then Fail(r.st, UnicodeDecodeError)
      else
        var s1 := r.st.(config := r.st.config.(serial := HwSerial(b)));
        if !ValidUtf8(HwFirmware(b)) then Fail(s1, UnicodeDecodeError)
        else
          var k := CheckSum(env, s1);
          if k.res.Raised? then Fail(k.st, k.res.exc) else Out(k.st, Ok(None))
  }

  /** `read_head_cfg`: a fixed 220-byte record whose fields the model does not keep. */
  function ReadHeadCfg(env: Env, s: State): (o: Step<Option<int>>)
    ensures Framed(s, o.st)
    ensures o.res.Ok? ==> o.st.pos > s.pos && o.res.value.None?
  {
    var r := Read(env, s, HEAD_CFG_SIZE);
    if r.res.Raised? then Fail(r.st, r.res.exc)
    else
      var k := CheckSum(env, r.st);
      if k.res.Raised? then Fail(k.st, k.res.exc) else Out(k.st, Ok(None))
  }

  /**
   * `read_user_cfg`: the configuration fields in the order the routine sets
   * them; a coordinate index beyond the three labels raises `IndexError`
   * and the two text fields, cut at their first NUL, must decode as UTF-8.
   */
  function ReadUserCfg(env: Env, s: State): (o: Step<Option<int>>)
    ensures Framed(s, o.st)
    ensures o.res.Ok? ==> o.st.pos > s.pos && o.res.value.None?
  {
    var r := Read(env, s, USER_CFG_SIZE);
    if r.res.Raised? then Fail(r.st, r.res.exc)
    else
      var b := r.res.value;
      var cfg1 := r.st.config.(avgInterval := UserAvgInterval(b, env.e));
      var coord := UserCoordIndex(b, env.e);
      if CoordLabel(coord).None? then Fail(r.st.(config := cfg1), IndexError)
      else
        var cfg2 := cfg1.(coordAxes := coord, nbins := UserNBins(b, env.e),
                          measInterval := UserMeasInterval(b, env.e));
        if !ValidUtf8(BeforeNul(UserDeployName(b))) then Fail(r.st.(config := cfg2), UnicodeDecodeError)
        else if !ValidUtf8(BeforeNul(UserComments(b))) then Fail(r.st.(config := cfg2), UnicodeDecodeError)
        else
          var k := CheckSum(env, r.st.(config := cfg2.(nburst := UserNBurst(b, env.e))));
          if k.res.Raised? then Fail(k.st, k.res.exc) else Out(k.st, Ok(None))
  }

  /** The routine `fun_map` names for a record kind. */
  function Routine(env: Env, s: State, k: Kind): (o: Step<Option<int>>)
    ensures Framed(s, o.st)
    ensures o.res.Ok? ==> o.st.pos > s.pos && (o.res.value.None? || o.res.value == Some(10))
  {
    match k
    case UserCfg => ReadUserCfg(env, s)
    case HeadCfg => ReadHeadCfg(env, s)
    case HwCfg => ReadHwCfg(env, s)
    case VecCheckData => ReadVecCheckdata(env, s)
    case VecData => ReadVecData(env, s)
    case VecSysData => ReadVecSysdata(env, s)
    case VecHdr => ReadVecHdr(env, s)
    case Microstrain => ReadMicrostrain(env, s)
    case AwacProfile => ReadAwacProfile(env, s)
  }

  /** `lst[:-1]`. */
  function DropLast<T>(lst: seq<T>): (r: seq<T>)
    ensures |lst| >= 1 ==> |r| == |lst| - 1 && r == lst[..|lst| - 1]
    ensures |lst| == 0 ==> r == []
  {
    if |lst| == 0 then [] else lst[..|lst| - 1]
  }

  /**
   * `readnext`: read an id; for a code of `fun_map` run its routine and
   * push its name on the history; for any other code rewind 2 bytes and
   * return 10.
   */
  function ReadNext(env: Env, s: State): (o: Step<Option<int>>)
    ensures o.res.Ok? ==> s.pos + 2 <= |env.file| && o.st.pos >= s.pos
    ensures o.res.Ok? ==> o.res.value.None? || o.res.value == Some(10)
    ensures o.res.Ok? && o.res.value.None? ==> o.st.pos > s.pos
  {
    var r := ReadId(env, s);
    if r.res.Raised? then Fail(r.st, r.res.exc)
    else match KindOfCode(r.res.value)
    case None => Out(r.st.(pos := r.st.pos - 2), Ok(Some(10)))
    case Some(k) =>
      var o := Routine(env, r.st, k);
      if o.res.Raised? then o
      else Out(o.st.(lastread := [Some(k)] + DropLast(o.st.lastread)), o.res)
  }

  // ---------------------------------------------------------------------
  // The main loop.

  /**
   * The `while` loop of `readfile` with its `try ... except EOFError`: the
   * result is `Ok` when the loop stops by `break` or by end of file, and
   * carries any other exception.
   */
  function ReadLoop(env: Env, s: State, nlines: Option<int>): (o: Step<()>)
    ensures o.res.Raised? ==> o.res.exc != EofError
    decreases Sync.Remaining(env.file, s.pos), 1
  {
    if nlines == Some(s.c) then Out(s, Ok(()))
    else
      var r := ReadNext(env, s);
      if r.res.Raised? then (if r.res.exc == EofError then Out(r.st, Ok(())) else Fail(r.st, r.res.exc))
      else
        var f: Step<byte> := if r.res.value == Some(10) then FindNext(env, r.st, true) else Out(r.st, Ok(0));
        if f.res.Raised? then Out(f.st, Ok(()))
        else AfterRecord(env, f.st, nlines, Sync.Remaining(env.file, s.pos))
  }

  /**
   * The end of one pass of the `readfile` loop, once a record has been
   * read: stop at the ping limit (reading one more record when the file
   * has IMU data), otherwise go round again. `bound` is the unread length
   * before the pass, which the pass has shortened.
   */
  function AfterRecord(env: Env, s: State, nlines: Option<int>, bound: nat): (o: Step<()>)
    requires Sync.Remaining(env.file, s.pos) < bound
    ensures o.res.Raised? ==> o.res.exc != EofError
    decreases bound, 0
  {
    if env.npings.Some? && s.c >= env.npings.value then
      Out(if Microstrain in s.dtypes then ReadNext(env, s).st else s, Ok(()))
    else ReadLoop(env, s, nlines)
  }

  /**
   * `readfile(nlines)`: the loop, then `c -= 1`. The closing `crop_data`
   * is applied to the top-level dictionary, whose entries are all
   * dictionaries, and so changes nothing (see `Crop.CropOfGroupsIsIdentity`).
   */
  function ReadFile(env: Env, s: State, nlines: Option<int>): (o: Step<()>)
    ensures o.res.Raised? ==> o.res.exc != EofError
    ensures nlines == Some(s.c) ==> o == Out(s.(c := s.c - 1), Ok(()))
  {
    FinishFile(ReadLoop(env, s, nlines))
  }

  /** `c -= 1` after a loop that ended without an exception. */
  function FinishFile(l: Step<()>): (o: Step<()>)
  {
    if l.res.Raised? then l else Out(l.st.(c := l.st.c - 1), Ok(()))
  }

  // ---------------------------------------------------------------------
  // Header phase and initialisation.

  /**
   * One pass of the `findnextid` loop from `s`: read an id, then skip the
   * record (22 bytes for velocity records, which have no size field,
   * otherwise twice the size word less the 4 bytes already read).
   * Returns the id read.
   */
  function SkipRecord(env: Env, s: State): (o: Step<byte>)
    ensures OnlyPosMoved(s, o.st)
    ensures o.res.Ok? ==> s.pos < |env.file| && o.st.pos >= s.pos
    ensures o.res.Raised? ==> o.res.exc == EofError && o.st.pos >= s.pos
  {
    var r := ReadId(env, s);
    if r.res.Raised? then Fail(r.st, r.res.exc)
    else if r.res.value == 16 then Out(r.st.(pos := r.st.pos + 22), r.res)
    else
      var z := Read(env, r.st, 2);
      if z.res.Raised? then Fail(z.st, z.res.exc)
      else Out(z.st.(pos := z.st.pos + 2 * U16At(z.res.value, 0, env.e) - 4), r.res)
  }

  /**
   * `findnextid(id)` after `passes` passes: skip records until one with
   * type `id` has been skipped, and return the offset. Every pass that
   * does not raise starts inside the file and depends on the offset alone,
   * so after more than `|file|` passes some offset has been visited twice
   * and Python repeats the same passes forever: that is reported as
   * `Diverges`.
   */
  function FindNextId(env: Env, s: State, id: byte, passes: nat): (o: Step<nat>)
    ensures OnlyPosMoved(s, o.st) && o.st.pos >= s.pos
    ensures o.res.Ok? ==> o.res.value == o.st.pos
    decreases |env.file| + 1 - passes
  {
    if passes > |env.file| then Fail(s, Diverges)
    else
      var r := SkipRecord(env, s);
      if r.res.Raised? then Fail(r.st, r.res.exc)
      else if r.res.value == id then Out(r.st, Ok(r.st.pos))
      else FindNextId(env, r.st, id, passes + 1)
  }

  /**
   * The `for i in range(iternum)` loop of `code_spacing` from pass `i`:
   * each pass calls `findnextid`; `EOFError` ends the loop. Returns `i + 1`
   * for the last pass made, which is the divisor of the average.
   */
  function SpacingLoop(env: Env, s: State, id: byte, i: nat, iternum: nat): (o: Step<nat>)
    requires i < iternum
    ensures OnlyPosMoved(s, o.st) && o.st.pos >= s.pos
    ensures o.res.Ok? ==> i + 1 <= o.res.value <= iternum
    decreases iternum - i
  {
    var r := FindNextId(env, s, id, 0);
    if r.res.Raised? then (if r.res.exc == EofError then Out(r.st, Ok(i + 1)) else Fail(r.st, r.res.exc))
    else if i + 1 == iternum then Out(r.st, Ok(iternum))
    else SpacingLoop(env, r.st, id, i + 1, iternum)
  }

  /**
   * `code_spacing(id, iternum)`: the offset after the first record of type
   * `id`, then up to `iternum` more; the result is the average spacing as
   * the exact pair (bytes spanned, passes counted). With `iternum == 0`
   * the loop variable is never bound and the division raises
   * `UnboundLocalError`.
   */
  function CodeSpacing(env: Env, s: State, id: byte, iternum: nat): (o: Step<(nat, nat)>)
    ensures OnlyPosMoved(s, o.st)
    ensures o.res.Ok? ==> 1 <= o.res.value.1 <= iternum
  {
    var p := FindNextId(env, s, id, 0);
    if p.res.Raised? then Fail<(nat, nat)>(p.st, p.res.exc)
    else if iternum == 0 then Fail<(nat, nat)>(p.st, UnboundLocalError)
    else SpacingFrom(env, p.st, p.res.value, id, iternum)
  }

  /** The passes of `code_spacing` after the first record, found at `p0`. */
  function SpacingFrom(env: Env, s: State, p0: nat, id: byte, iternum: nat): (o: Step<(nat, nat)>)
    requires iternum > 0 && p0 <= s.pos
    ensures OnlyPosMoved(s, o.st)
    ensures o.res.Ok? ==> 1 <= o.res.value.1 <= iternum
    ensures o.res.Ok? ==> p0 + o.res.value.0 == o.st.pos && o.st.pos >= s.pos
  {
    var l := SpacingLoop(env, s, id, 0, iternum);
    if l.res.Raised? then Fail<(nat, nat)>(l.st, l.res.exc)
    else
      var span: nat := l.st.pos - p0;
      Out(l.st, Ok((span, l.res.value)))
  }

  /** The `nens` argument: everything, a ping count, or a `(start, stop)` pair whose start is ignored. */
  datatype Nens = AllPings | Pings(n: int) | PingRange(start: int, stop: int)

  function NpingsOf(nens: Nens): Option<int>
  {
    match nens
    case AllPings => None
    case Pings(n) => Some(n)
    case PingRange(_, stop) => Some(stop)
  }

  /** The magic first word pair of a Nortek file (the hardware record's sync/id and size). */
  predicate MagicAt(b: seq<byte>, e: Endian)
    requires |b| == 4
  {
    U16At(b, 0, e) == 1445 && U16At(b, 2, e) == 24
  }

  /**
   * The byte-order probe: bytes 0..4 read little-endian, else the next
   * four bytes (4..8, the offset having moved) read big-endian.
   */
  function DetectEndian(file: seq<byte>): (r: Res<Endian>)
    ensures r == Ok(Little) <==> |file| >= 4 && MagicAt(file[..4], Little)
    ensures r == Ok(Big) <==> |file| >= 8 && !MagicAt(file[..4], Little) && MagicAt(file[4..8], Big)
  {
    var b := Avail(file, 0, 4);
    if |b| < 4 then Raised(EofError)
    else if MagicAt(b, Little) then Ok(Little)
    else
      var b2 := Avail(file, 4, 4);
      if |b2| < 4 then Raised(EofError)
      else if MagicAt(b2, Big) then Ok(Big)
      else Raised(WrongFileType)
  }

  /** The header: the hardware, head and user configuration records must come first, in that order. */
  function ReadHeader(env: Env, s: State): (o: Step<()>)
    ensures o.res.Ok? ==> o.st.pos > s.pos
  {
    var i1 := ReadId(env, s);
    if i1.res.Raised? then Fail(i1.st, i1.res.exc)
    else if i1.res.value != CodeOf(HwCfg) then Fail(i1.st, NotNortek)
    else
      var h := ReadHwCfg(env, i1.st);
      if h.res.Raised? then Fail(h.st, h.res.exc)
      else
        var i2 := ReadId(env, h.st);
        if i2.res.Raised? then Fail(i2.st, i2.res.exc)
        else if i2.res.value != CodeOf(HeadCfg) then Fail(i2.st, NotNortek)
        else
          var d := ReadHeadCfg(env, i2.st);
          if d.res.Raised? then Fail(d.st, d.res.exc)
          else
            var i3 := ReadId(env, d.st);
            if i3.res.Raised? then Fail(i3.st, i3.res.exc)
            else if i3.res.value != CodeOf(UserCfg) then Fail(i3.st, NotNortek)
            else
              var u := ReadUserCfg(env, i3.st);
              if u.res.Raised? then Fail(u.st, u.res.exc) else Out(u.st, Ok(()))
  }

  /** A reader state before any record is read: offset 0, `c == 0`, five empty history slots. */
  function Fresh(n: nat): (s: State)
    ensures |s.vec| == n && |s.sys| == n && |s.imu| == n && |s.prof| == n && |s.burstStart| == n
  {
    State(0, 0, [None, None, None, None, None], [], None, false, NoConfig, {},
          seq(n, _ => None), seq(n, _ => SysRow(None, None)), seq(n, _ => map[]),
          seq(n, _ => ProfileRow(None, None, None)), seq(n, _ => false))
  }

  /**
   * `init_ADV`: `fs = 512 / AvgInterval`, and the capacity guess
   * `int(filesize / dlta + 1) * int(fs)` where `dlta` is the spacing of
   * system records; a zero interval or a zero spacing raises.
   */
  function AdvGuess(filesize: nat, span: nat, count: nat, avg: nat): (r: Res<int>)
    ensures r.Ok? <==> avg > 0 && span > 0
    ensures r.Ok? ==> r.value == (filesize * count / span + 1) * (512 / avg)
  {
    if avg == 0 then Raised(ZeroDivisionError)
    else if span == 0 then Raised(ZeroDivisionError)
    else Ok((filesize * count / span + 1) * (512 / avg))
  }

  /** `init_AWAC`: the capacity guess `int(filesize / dlta + 1)`, then `fs = 1 / AvgInterval`. */
  function AwacGuess(filesize: nat, span: nat, count: nat, avg: nat): (r: Res<int>)
    ensures r.Ok? <==> avg > 0 && span > 0
    ensures r.Ok? ==> r.value == filesize * count / span + 1
  {
    if span == 0 then Raised(ZeroDivisionError)
    else if avg == 0 then Raised(ZeroDivisionError)
    else Ok(filesize * count / span + 1)
  }

  /**
   * `init_ADV` or `init_AWAC` from the state after the header, then the
   * `npings` override: the column capacity. The instrument comes from the
   * serial number (no `config_type` otherwise: `KeyError`); the spacing
   * of its data records is measured and the offset restored afterwards.
   */
  function Capacity(env: Env, s: State, nens: Nens): (r: Res<int>)
    ensures r.Ok? && nens != AllPings ==> r.value == NpingsOf(nens).value + 1
  {
    match SerialInst(s.config.serial)
    case None => Raised(KeyError)
    case Some(inst) =>
      var code := if inst == Adv then CodeOf(VecSysData) else CodeOf(AwacProfile);
      CapacityOf(inst, |env.file|, CodeSpacing(env, s, code, 50).res, s.config.avgInterval, nens)
  }

  /** The capacity from the measured spacing `sp` of the instrument's data records. */
  function CapacityOf(inst: Inst, filesize: nat, sp: Res<(nat, nat)>, avg: nat, nens: Nens): (r: Res<int>)
    ensures r.Ok? && nens != AllPings ==> r.value == NpingsOf(nens).value + 1
  {
    if sp.Raised? then Raised(sp.exc)
    else
      var (span, count) := sp.value;
      var guess := if inst == Adv then AdvGuess(filesize, span, count, avg) else AwacGuess(filesize, span, count, avg);
      if guess.Raised? then Raised(guess.exc)
      else if nens.AllPings? then Ok(guess.value)
      else Ok(NpingsOf(nens).value + 1)
  }

  /**
   * `NortekReader.__init__`: find the byte order, read the header, take
   * the column capacity, allocate the columns (a negative capacity makes
   * numpy raise `ValueError`) and return to the offset after the header
   * with `c == 0`.
   */
  function Open(file: seq<byte>, endian: Option<Endian>, doChecksum: bool, nens: Nens): (r: Res<(Env, State)>)
    ensures r.Ok? ==> Shaped(r.value.0, r.value.1) && r.value.1.c == 0
    ensures r.Ok? ==> r.value.1 == Fresh(r.value.0.nSampGuess).(pos := r.value.1.pos, config := r.value.1.config)
    ensures r.Ok? ==> r.value.1.pos > 0
    ensures r.Ok? ==> r.value.0.file == file && r.value.0.npings == NpingsOf(nens)
    ensures r.Ok? && nens != AllPings ==> r.value.0.nSampGuess == NpingsOf(nens).value + 1
  {
    var e := if endian.Some? then Ok(endian.value) else DetectEndian(file);
    if e.Raised? then Raised(e.exc)
    else
      var env0 := Env(file, e.value, doChecksum, 0, NpingsOf(nens));
      var h := ReadHeader(env0, Fresh(0));
      if h.res.Raised? then Raised(h.res.exc)
      else
        var n := Capacity(env0, h.st, nens);
        if n.Raised? then Raised(n.exc)
        else if n.value < 0 then Raised(ValueError)
        else Ok((env0.(nSampGuess := n.value), Fresh(n.value).(pos := h.st.pos, config := h.st.config)))
  }
}
