/**
 * The older reader as the object it is: `vec_reader` keeps the offset,
 * `c`, `flag_lastread_sysdata` and the other context in fields, writes its
 * sample columns in place at index `c`, and at the end of `readfile`
 * replaces every column by its slice `[:c]`. Every method is proved to
 * leave the object in the state, and to end the way, the step function of
 * `AdvModel` with the same name gives for the state before the call.
 */
module AdvIo {
  import opened Wire
  import opened Helpers
  import opened Records
  import opened Py
  import Sync
  import Checksum
  import Model = AdvModel

  /** A fresh column holding the first `n` entries of `a` (what `a[..., :n]` keeps). */
  method Prefix<T>(a: array<T>, n: nat) returns (b: array<T>)
    requires n <= a.Length
    ensures fresh(b) && b[..] == a[..n]
  {
    var s := a[..n];
    b := new T[n](i requires 0 <= i < n => s[i]);
  }

  class VecReader {
    const env: Model.Env
    var pos: nat
    var c: int
    var thisId: seq<byte>
    var flag: Option<bool>
    var dtypes: seq<Kind>
    var config: Config
    var imuVars: set<ImuVar>
    var vec: array<Option<VecSample>>
    var sys: array<SysRow>
    var imu: array<ImuRow>
    var prof: array<ProfileRow>

    /** The reader's context and columns as a value of the step-function model. */
    function Snapshot(): Model.State
      reads this, vec, sys, imu, prof
    {
      Model.State(pos, c, thisId, flag, dtypes, config, imuVars, vec[..], sys[..], imu[..], prof[..])
    }

    /** The columns are still the arrays they were: only their entries may have changed. */
    twostate predicate SameColumns()
      reads this
    {
      vec == old(vec) && sys == old(sys) && imu == old(imu) && prof == old(prof)
    }

    /** A reader whose context and columns are `st`, with columns allocated fresh. */
    constructor FromState(env: Model.Env, st: Model.State)
      ensures this.env == env && Snapshot() == st
      ensures fresh(vec) && fresh(sys) && fresh(imu) && fresh(prof)
    {
      this.env := env;
      pos, c, thisId, flag := st.pos, st.c, st.thisId, st.flag;
      dtypes, config, imuVars := st.dtypes, st.config, st.imuVars;
      vec := new Option<VecSample>[|st.vec|](i requires 0 <= i < |st.vec| => st.vec[i]);
      sys := new SysRow[|st.sys|](i requires 0 <= i < |st.sys| => st.sys[i]);
      imu := new ImuRow[|st.imu|](i requires 0 <= i < |st.imu| => st.imu[i]);
      prof := new ProfileRow[|st.prof|](i requires 0 <= i < |st.prof| => st.prof[i]);
      new;
      assert vec[..] == st.vec && sys[..] == st.sys && imu[..] == st.imu && prof[..] == st.prof;
    }

    // -------------------------------------------------------------------
    // Stream primitives.

    /** `self.read(n)`: at most `n` bytes. */
    method Read(n: nat) returns (b: seq<byte>)
      modifies this
      ensures SameColumns()
      ensures Model.Read(env, old(Snapshot()), n) == (Snapshot(), b)
    {
      b := Avail(env.file, pos, n);
      pos := pos + |b|;
    }

    /**
     * `findnext(do_cs)`: read word after word, keeping the running sum of
     * all words but the last and the last word itself, until a sync byte
     * shows up (after a matching sum when `doCs`); then step back onto it.
     */
    method FindNext(doCs: bool) returns (r: Option<byte>)
      modifies this
      ensures SameColumns()
      ensures Model.FindNext(env, old(Snapshot()), doCs) == (Snapshot(), r)
    {
      var sum: uint16 := Checksum.SEED;
      var cs: uint16 := 0;
      while true
        invariant SameColumns()
        invariant Snapshot() == old(Snapshot()).(pos := pos)
        invariant Sync.Scan(env.file, env.e, pos, sum, cs, doCs) == Sync.FindNext(env.file, env.e, old(pos), doCs)
        decreases Sync.Remaining(env.file, pos)
      {
        var w := Read(2);
        if |w| != 2 {
          // The unpack failed at the end of the file, and so does the retry.
          var again := Read(2);
          assert again == [];
          return None;
        }
        var val := Word(w[0], w[1], env.e);
        if SyncProbe(val, env.e) == SYNC && (!doCs || cs == sum) {
          pos := pos - 2;
          return Some(CodeProbe(val, env.e));
        }
        sum := (sum + cs) % 0x1_0000;
        cs := val;
      }
    }

    /** `read_id`. */
    method ReadId() returns (r: Res<byte>)
      modifies this
      ensures SameColumns()
      ensures Model.ReadId(env, old(Snapshot())) == Out(Snapshot(), r)
    {
      var b := Read(2);
      thisId := b;
      if |b| != 2 {
        return Raised(StructError);
      }
      if b[0] != SYNC {
        var code := FindNext(false);
        if code.None? {
          return Raised(TypeError);
        }
        pos := pos + 2;
        return Ok(code.value);
      }
      return Ok(b[1]);
    }

    /** `checksum(byts)`. */
    method CheckSum(byts: seq<byte>) returns (r: Res<()>)
      modifies this
      ensures SameColumns()
      ensures Model.CheckSum(env, old(Snapshot()), byts) == Out(Snapshot(), r)
    {
      if !env.doChecksum {
        pos := pos + 2;
        return Ok(());
      }
      if |thisId| + |byts| != 2 * (1 + |byts| / 2) {
        return Raised(StructError);
      }
      var sum := Sum(Words(thisId + byts, env.e));
      var t := Read(2);
      if |t| != 2 {
        return Raised(StructError);
      }
      if Checksum.RaisesAsWritten(sum, U16At(t, 0, env.e)) {
        return Raised(CheckSumError);
      }
      return Ok(());
    }

    /** The creation block of kind `k`, run when its guard attribute is missing. */
    method InitKind(k: Kind) returns (r: Res<()>)
      requires k in {VecData, VecSysData, AwacProfile}
      modifies this
      ensures SameColumns()
      ensures Model.InitKind(env, old(Snapshot()), k) == Out(Snapshot(), r)
    {
      if Model.Guard(k) in Model.Attrs(dtypes) {
        return Ok(());
      }
      if env.nSampGuess < 0 {
        return Raised(ValueError);
      }
      dtypes := dtypes + [k];
      return Ok(());
    }

    // -------------------------------------------------------------------
    // Record routines.

    /** `read_vec_data`. */
    method ReadVecData() returns (r: Res<()>)
      modifies this, vec
      ensures SameColumns()
      ensures Model.ReadVecData(env, old(Snapshot())) == Out(Snapshot(), r)
    {
      if flag.None? {
        return Raised(AttributeError);
      }
      if !flag.value {
        c := c + 1;
      }
      var i := InitKind(VecData);
      if i.Raised? {
        return Raised(i.exc);
      }
      var b := Read(VEC_DATA_SIZE);
      if |b| != VEC_DATA_SIZE {
        return Raised(StructError);
      }
      r := StoreVec(b);
    }

    /** The unpacking half of `read_vec_data`. */
    method StoreVec(b: seq<byte>) returns (r: Res<()>)
      requires |b| == VEC_DATA_SIZE
      modifies this, vec
      ensures SameColumns()
      ensures Model.StoreVec(env, old(Snapshot()), b) == Out(Snapshot(), r)
    {
      var slot := NpIndex(c, vec.Length);
      if slot.None? {
        return Raised(IndexError);
      }
      vec[slot.value] := Some(DecodeVec(b, env.e));
      flag := Some(false);
      r := CheckSum(b);
    }

    /** `read_vec_sysdata`. */
    method ReadVecSysdata() returns (r: Res<()>)
      modifies this, sys
      ensures SameColumns()
      ensures Model.ReadVecSysdata(env, old(Snapshot())) == Out(Snapshot(), r)
    {
      flag := Some(true);
      c := c + 1;
      var i := InitKind(VecSysData);
      if i.Raised? {
        return Raised(i.exc);
      }
      var b := Read(SYS_DATA_SIZE);
      r := StoreSys(b);
    }

    /** The unpacking half of `read_vec_sysdata`. */
    method StoreSys(b: seq<byte>) returns (r: Res<()>)
      modifies this, sys
      ensures SameColumns()
      ensures Model.StoreSys(env, old(Snapshot()), b) == Out(Snapshot(), r)
    {
      if |b| < 8 {
        return Raised(StructError);
      }
      var t := DecodeStamp(b[2..8], true);
      if !ValidStamp(t) {
        return Raised(ValueError);
      }
      var slot := NpIndex(c, sys.Length);
      if slot.None? {
        return Raised(IndexError);
      }
      var k := slot.value;
      sys[k] := sys[k].(time := Some(t));
      if |b| != SYS_DATA_SIZE {
        return Raised(StructError);
      }
      if Model.SysError !in Model.Attrs(dtypes) {
        return Raised(AttributeError);
      }
      sys[k] := sys[k].(fields := Some(DecodeSysFields(b[8..24], env.e)));
      r := CheckSum(b);
    }

    /**
     * The IMU column writes of one record, in layout order and in place at
     * slot `c`; a missing attribute or slot stops them.
     */
    method WriteImu(payload: seq<byte>, ws: seq<(ImuVar, nat, nat)>) returns (err: Option<Exc>)
      requires forall j :: 0 <= j < |ws| ==> ws[j].1 <= ws[j].2 <= |payload|
      modifies imu
      ensures Records.WriteImu(old(imu[..]), imuVars, AttributeError, c, payload, ws) == (imu[..], err)
    {
      var j := 0;
      while j < |ws|
        invariant 0 <= j <= |ws|
        invariant Records.WriteImu(imu[..], imuVars, AttributeError, c, payload, ws[j..])
               == Records.WriteImu(old(imu[..]), imuVars, AttributeError, c, payload, ws)
      {
        assert ws[j..][1..] == ws[j + 1..];
        var (v, from, to) := ws[j];
        if v !in imuVars {
          return Some(AttributeError);
        }
        match NpIndex(c, imu.Length) {
          case None => return Some(IndexError);
          case Some(i) => imu[i] := imu[i][v := payload[from..to]];
        }
        j := j + 1;
      }
      assert ws[j..] == [];
      return None;
    }

    /** `read_microstrain`. */
    method ReadMicrostrain() returns (r: Res<()>)
      modifies this, imu
      ensures SameColumns()
      ensures Model.ReadMicrostrain(env, old(Snapshot())) == Out(Snapshot(), r)
    {
      if flag.None? {
        return Raised(AttributeError);
      }
      if flag.value {
        flag := Some(false);
        c := c - 1;
      }
      var b0 := Read(IMU_HEAD_SIZE);
      if |b0| != IMU_HEAD_SIZE {
        return Raised(StructError);
      }
      r := AfterImuHead(b0);
    }

    /** The rest of `read_microstrain` once the record head `b0` is read. */
    method AfterImuHead(b0: seq<byte>) returns (r: Res<()>)
      requires |b0| == IMU_HEAD_SIZE
      modifies this, imu
      ensures SameColumns()
      ensures Model.AfterImuHead(env, old(Snapshot()), b0) == Out(Snapshot(), r)
    {
      var ahrs := AhrsId(b0);
      if Accel !in imuVars {
        dtypes := dtypes + [Microstrain];
        if Model.ImuVarsFor(ahrs) != {} && env.nSampGuess < 0 {
          return Raised(ValueError);
        }
        imuVars := imuVars + Model.ImuVarsFor(ahrs);
      }
      if ahrs != 204 {
        return Raised(UnboundLocalError);
      }
      var b := Read(78);
      if |b| != 78 {
        return Raised(StructError);
      }
      var err := WriteImu(b, Model.LAYOUT_204);
      if err.Some? {
        return Raised(err.value);
      }
      r := CheckSum(b0 + b);
    }

    /** `read_vec_hdr`. */
    method ReadVecHdr() returns (r: Res<()>)
      modifies this
      ensures SameColumns()
      ensures Model.ReadVecHdr(env, old(Snapshot())) == Out(Snapshot(), r)
    {
      var b := Read(VEC_HDR_SIZE);
      if |b| != VEC_HDR_SIZE {
        return Raised(StructError);
      }
      if !ValidStamp(DecodeStamp(b[2..8], true)) {
        return Raised(ValueError);
      }
      r := CheckSum(b);
    }

    /** `read_vec_checkdata`. */
    method ReadVecCheckdata() returns (r: Res<()>)
      modifies this
      ensures SameColumns()
      ensures Model.ReadVecCheckdata(env, old(Snapshot())) == Out(Snapshot(), r)
    {
      var b0 := Read(CHECK_HEAD_SIZE);
      if |b0| != CHECK_HEAD_SIZE {
        return Raised(StructError);
      }
      var n: nat := U16At(b0, 2, env.e);
      var b1 := Read(3 * n);
      if |b1| != 3 * n {
        return Raised(StructError);
      }
      r := CheckSum(b0 + b1);
    }

    /** `read_awac_profile`. */
    method ReadAwacProfile() returns (r: Res<()>)
      modifies this, prof
      ensures SameColumns()
      ensures Model.ReadAwacProfile(env, old(Snapshot())) == Out(Snapshot(), r)
    {
      var nbins := config.nbins;
      var i := InitKind(AwacProfile);
      if i.Raised? {
        return Raised(i.exc);
      }
      var b := Read(ProfileSize(nbins));
      c := c + 1;
      r := StoreProfile(b);
    }

    /** The unpacking half of `read_awac_profile`. */
    method StoreProfile(b: seq<byte>) returns (r: Res<()>)
      modifies this, prof
      ensures SameColumns()
      ensures Model.StoreProfile(env, old(Snapshot()), b) == Out(Snapshot(), r)
    {
      var nbins := config.nbins;
      if |b| < 8 {
        return Raised(StructError);
      }
      var t := DecodeStamp(b[2..8], true);
      if !ValidStamp(t) {
        return Raised(ValueError);
      }
      var slot := NpIndex(c, prof.Length);
      if slot.None? {
        return Raised(IndexError);
      }
      var k := slot.value;
      prof[k] := prof[k].(time := Some(t));
      if |b| < 28 {
        return Raised(StructError);
      }
      if Model.ProfileError !in Model.Attrs(dtypes) {
        return Raised(AttributeError);
      }
      prof[k] := prof[k].(head := Some(DecodeProfileHead(b[8..28], env.e)));
      if |b| < 116 + 9 * nbins as nat {
        return Raised(StructError);
      }
      prof[k] := prof[k].(bins := Some(DecodeBins(b[116..116 + 9 * nbins as nat], nbins as nat, env.e)));
      r := CheckSum(b);
    }

    /** `read_hw_cfg`. */
    method ReadHwCfg() returns (r: Res<()>)
      modifies this
      ensures SameColumns()
      ensures Model.ReadHwCfg(env, old(Snapshot())) == Out(Snapshot(), r)
    {
      var b := Read(HW_CFG_SIZE);
      if |b| != HW_CFG_SIZE {
        return Raised(StructError);
      }
      config := config.(serial := HwSerial(b));
      r := CheckSum(b);
    }

    /** `read_head_cfg`. */
    method ReadHeadCfg() returns (r: Res<()>)
      modifies this
      ensures SameColumns()
      ensures Model.ReadHeadCfg(env, old(Snapshot())) == Out(Snapshot(), r)
    {
      var b := Read(HEAD_CFG_SIZE);
      if |b| != HEAD_CFG_SIZE {
        return Raised(StructError);
      }
      r := CheckSum(b);
    }

    /** `read_user_cfg`. */
    method ReadUserCfg() returns (r: Res<()>)
      modifies this
      ensures SameColumns()
      ensures Model.ReadUserCfg(env, old(Snapshot())) == Out(Snapshot(), r)
    {
      var b := Read(USER_CFG_SIZE);
      if |b| != USER_CFG_SIZE {
        return Raised(StructError);
      }
      config := config.(avgInterval := UserAvgInterval(b, env.e));
      var coord := UserCoordIndex(b, env.e);
      if CoordLabel(coord).None? {
        return Raised(IndexError);
      }
      config := config.(coordAxes := coord, nbins := UserNBins(b, env.e),
                        measInterval := UserMeasInterval(b, env.e), nburst := UserNBurst(b, env.e));
      r := CheckSum(b);
    }

    /** The routine `fun_map` names for `k`. */
    method Routine(k: Kind) returns (r: Res<()>)
      modifies this, vec, sys, imu, prof
      ensures SameColumns()
      ensures Model.Routine(env, old(Snapshot()), k) == Out(Snapshot(), r)
    {
      match k
      case UserCfg => r := ReadUserCfg();
      case HeadCfg => r := ReadHeadCfg();
      case HwCfg => r := ReadHwCfg();
      case VecCheckData => r := ReadVecCheckdata();
      case VecData => r := ReadVecData();
      case VecSysData => r := ReadVecSysdata();
      case VecHdr => r := ReadVecHdr();
      case Microstrain => r := ReadMicrostrain();
      case AwacProfile => r := ReadAwacProfile();
    }

    /** `readnext`: the return codes 1, 2 and 10, or `None` once a routine completes. */
    method ReadNext() returns (r: Res<Option<int>>)
      modifies this, vec, sys, imu, prof
      ensures SameColumns()
      ensures Model.ReadNext(env, old(Snapshot())) == Out(Snapshot(), r)
    {
      var id := ReadId();
      if id.Raised? {
        return if id.exc == StructError then Ok(Some(1)) else Raised(id.exc);
      }
      match KindOfCode(id.value) {
        case None =>
          pos := pos - 2;
          return Ok(Some(10));
        case Some(k) =>
          var o := Routine(k);
          if o.Raised? {
            return if o.exc == StructError then Ok(Some(2)) else Raised(o.exc);
          }
          return Ok(None);
      }
    }

    /**
     * The `while not retval` loop of `readfile(nlines)`; returns the last
     * `retval`.
     */
    method ReadRecords(nlines: Option<int>) returns (r: Res<Option<int>>)
      modifies this, vec, sys, imu, prof
      ensures SameColumns()
      ensures Model.ReadLoop(env, old(Snapshot()), nlines) == Out(Snapshot(), r)
    {
      while true
        invariant SameColumns()
        invariant Model.ReadLoop(env, Snapshot(), nlines) == Model.ReadLoop(env, old(Snapshot()), nlines)
        decreases Sync.Remaining(env.file, pos)
      {
        if nlines == Some(c) {
          return Ok(None);
        }
        ghost var s := Snapshot();
        var next := ReadNext();
        if next.Raised? {
          return Raised(next.exc);
        }
        var retval := next.value;
        if retval == Some(10) {
          var _ := FindNext(true);
          retval := None;
        }
        if env.npings.Some? && c >= env.npings.value {
          return Ok(retval);
        }
        if retval.Some? {
          return Ok(retval);
        }
        assert Sync.Remaining(env.file, pos) < Sync.Remaining(env.file, s.pos);
      }
    }

    /**
     * `readfile(nlines)`: the loop, `c -= 1` if it ended on code 2, then
     * every column replaced by its slice `[:c]`.
     */
    method ReadFile(nlines: Option<int>) returns (r: Res<()>)
      modifies this, vec, sys, imu, prof
      ensures Model.ReadFile(env, old(Snapshot()), nlines) == Out(Snapshot(), r)
    {
      var retval := ReadRecords(nlines);
      ghost var l := Out(Snapshot(), retval);
      if retval.Raised? {
        return Raised(retval.exc);
      }
      if retval.value == Some(2) {
        c := c - 1;
      }
      CropColumns();
      r := Ok(());
      assert Model.FinishFile(l) == Out(Snapshot(), r);
    }

    /** Every column replaced by its slice `[:c]`. */
    method CropColumns()
      modifies this
      ensures Snapshot() == Model.Cropped(old(Snapshot()), c)
      ensures fresh(vec) && fresh(sys) && fresh(imu) && fresh(prof)
    {
      vec := Prefix(vec, SliceStop(c, vec.Length));
      sys := Prefix(sys, SliceStop(c, sys.Length));
      imu := Prefix(imu, SliceStop(c, imu.Length));
      prof := Prefix(prof, SliceStop(c, prof.Length));
    }

    // -------------------------------------------------------------------
    // Header phase and initialisation.

    /** `findnextid(id)`: returns the offset of the first record of type `id` found. */
    method FindNextId(id: byte) returns (r: Res<nat>)
      modifies this
      ensures SameColumns()
      ensures Model.FindNextId(env, old(Snapshot()), id) == Out(Snapshot(), r)
    {
      while true
        invariant SameColumns()
        invariant Model.FindNextId(env, Snapshot(), id) == Model.FindNextId(env, old(Snapshot()), id)
        decreases Sync.Remaining(env.file, pos)
      {
        var code := FindNext(true);
        if code.None? {
          return Raised(TypeError);
        }
        if code.value == id {
          return Ok(pos);
        }
      }
    }

    /** `code_spacing(id, iternum)`: the average distance between records of type `id`. */
    method CodeSpacing(id: byte, iternum: nat) returns (r: Res<nat>)
      modifies this
      ensures SameColumns()
      ensures Model.CodeSpacing(env, old(Snapshot()), id, iternum) == Out(Snapshot(), r)
    {
      ghost var s0 := Snapshot();
      var p0 := FindNextId(id);
      if p0.Raised? {
        return Raised(p0.exc);
      }
      assert Model.CodeSpacing(env, s0, id, iternum) == Model.SpacingAfter(env, Snapshot(), p0.value, id, iternum);
      r := SpacingAfter(p0.value, id, iternum);
    }

    /** The `for i in range(iternum)` loop of `code_spacing` after the first record, found at `p0`, and the average. */
    method SpacingAfter(p0: nat, id: byte, iternum: nat) returns (r: Res<nat>)
      requires p0 <= pos
      modifies this
      ensures SameColumns()
      ensures Model.SpacingAfter(env, old(Snapshot()), p0, id, iternum) == Out(Snapshot(), r)
    {
      var l := FindNextIdTimes(id, iternum);
      if l.Raised? {
        return Raised(l.exc);
      }
      if iternum == 0 {
        return Raised(ZeroDivisionError);
      }
      return Ok(Model.Average(pos - p0, iternum));
    }

    /** The `for i in range(k)` loop of `code_spacing`: `k` further calls of `findnextid(id)`. */
    method FindNextIdTimes(id: byte, k: nat) returns (r: Res<()>)
      modifies this
      ensures SameColumns()
      ensures Model.FindNextIdTimes(env, old(Snapshot()), id, k) == Out(Snapshot(), r)
    {
      for i := 0 to k
        invariant SameColumns()
        invariant Model.FindNextIdTimes(env, Snapshot(), id, k - i) == Model.FindNextIdTimes(env, old(Snapshot()), id, k)
      {
        var f := FindNextId(id);
        if f.Raised? {
          return Raised(f.exc);
        }
      }
      return Ok(());
    }

    /** `init_ADV` or `init_AWAC`: the column capacity guess. */
    method SizeGuess(inst: Inst) returns (r: Res<int>)
      modifies this
      ensures Model.SizeGuess(env, old(Snapshot()), inst) == r
    {
      var code := if inst == Adv then CodeOf(VecSysData) else CodeOf(AwacProfile);
      var sp := CodeSpacing(code, 50);
      r := Model.GuessOf(inst, |env.file|, sp, config.avgInterval);
    }

    /** The hardware, head and user configuration records, in that order. */
    method ReadHeader() returns (r: Res<()>)
      modifies this
      ensures SameColumns()
      ensures Model.ReadHeader(env, old(Snapshot())) == Out(Snapshot(), r)
    {
      var i1 := ReadId();
      if i1.Raised? {
        return Raised(i1.exc);
      }
      if i1.value != CodeOf(HwCfg) {
        return Raised(NotNortek);
      }
      r := ReadHwCfg();
      if r.Raised? {
        return;
      }
      var i2 := ReadId();
      if i2.Raised? {
        return Raised(i2.exc);
      }
      if i2.value != CodeOf(HeadCfg) {
        return Raised(NotNortek);
      }
      r := ReadHeadCfg();
      if r.Raised? {
        return;
      }
      var i3 := ReadId();
      if i3.Raised? {
        return Raised(i3.exc);
      }
      if i3.value != CodeOf(UserCfg) {
        return Raised(NotNortek);
      }
      r := ReadUserCfg();
    }
  }

  /**
   * `vec_reader(fname, endian, do_checksum, npings)`: the header is read by
   * a reader without columns, which are allocated once the capacity guess
   * is known; the reader returned starts right after the header.
   */
  method Open(file: seq<byte>, endian: Option<Endian>, doChecksum: bool, npings: Option<int>) returns (r: Res<VecReader>)
    ensures var m := Model.Open(file, endian, doChecksum, npings);
            && (r.Raised? <==> m.Raised?)
            && (r.Raised? ==> r.exc == m.exc)
            && (r.Ok? ==> fresh(r.value) && r.value.env == m.value.0 && r.value.Snapshot() == m.value.1)
  {
    var e := if endian.Some? then Ok(endian.value) else Model.DetectEndian(file);
    if e.Raised? {
      return Raised(e.exc);
    }
    var env0 := Model.Env(file, e.value, doChecksum, 0, npings);
    var rd := new VecReader.FromState(env0, Model.Fresh(0));
    var h := rd.ReadHeader();
    if h.Raised? {
      return Raised(h.exc);
    }
    var inst := SerialInst(rd.config.serial);
    if inst.None? {
      return Raised(AttributeError);
    }
    var pnow, cfg, id := rd.pos, rd.config, rd.thisId;
    var guess := rd.SizeGuess(inst.value);
    if guess.Raised? {
      return Raised(guess.exc);
    }
    var n := if npings.Some? then npings.value + 1 else guess.value;
    var env := env0.(nSampGuess := n);
    var reader := new VecReader.FromState(env, Model.Fresh(Model.Capacity(env)).(pos := pnow, config := cfg, thisId := id));
    return Ok(reader);
  }
}
