/**
 * The newer reader as the object it is: `NortekReader` keeps the offset,
 * `c`, the history and the other context in fields and writes its sample
 * columns in place at index `c`. Every method is proved to leave the
 * object in the state, and to end the way, the step function of
 * `NortekModel` with the same name gives for the state before the call.
 */
module NortekIo {
  import opened Wire
  import opened Helpers
  import opened Records
  import opened Py
  import Sync
  import Checksum
  import Model = NortekModel

  class NortekReader {
    const env: Model.Env
    var pos: nat
    var c: int
    var lastread: seq<Option<Kind>>
    var dtypes: seq<Kind>
    var ahrsid: Option<byte>
    var hasImu: bool
    var config: Config
    var imuVars: set<ImuVar>
    const vec: array<Option<VecSample>>
    const sys: array<SysRow>
    const imu: array<ImuRow>
    const prof: array<ProfileRow>
    const burstStart: array<bool>

    /** The reader's context and columns as a value of the step-function model. */
    function Snapshot(): Model.State
      reads this, vec, sys, imu, prof, burstStart
    {
      Model.State(pos, c, lastread, dtypes, ahrsid, hasImu, config, imuVars,
                  vec[..], sys[..], imu[..], prof[..], burstStart[..])
    }

    /** A reader whose context and columns are `st`, with columns allocated fresh. */
    constructor FromState(env: Model.Env, st: Model.State)
      requires Model.Shaped(env, st)
      ensures this.env == env && Snapshot() == st
      ensures fresh(vec) && fresh(sys) && fresh(imu) && fresh(prof) && fresh(burstStart)
    {
      this.env := env;
      pos, c, lastread, dtypes := st.pos, st.c, st.lastread, st.dtypes;
      ahrsid, hasImu, config, imuVars := st.ahrsid, st.hasImu, st.config, st.imuVars;
      vec := new Option<VecSample>[|st.vec|](i requires 0 <= i < |st.vec| => st.vec[i]);
      sys := new SysRow[|st.sys|](i requires 0 <= i < |st.sys| => st.sys[i]);
      imu := new ImuRow[|st.imu|](i requires 0 <= i < |st.imu| => st.imu[i]);
      prof := new ProfileRow[|st.prof|](i requires 0 <= i < |st.prof| => st.prof[i]);
      burstStart := new bool[|st.burstStart|](i requires 0 <= i < |st.burstStart| => st.burstStart[i]);
      new;
      assert vec[..] == st.vec && sys[..] == st.sys && imu[..] == st.imu;
      assert prof[..] == st.prof && burstStart[..] == st.burstStart;
    }

    // -------------------------------------------------------------------
    // Stream primitives.

    /** `read(n)`. */
    method Read(n: nat) returns (r: Res<seq<byte>>)
      modifies this
      ensures Model.Read(env, old(Snapshot()), n) == Out(Snapshot(), r)
    {
      var b := Avail(env.file, pos, n);
      pos := pos + |b|;
      r := if |b| == n then Ok(b) else Raised(EofError);
    }

    /**
     * `findnext(do_cs)`: read word after word, keeping the running sum of
     * all words but the last and the last word itself, until a sync byte
     * shows up (after a matching sum when `doCs`); then step back onto it.
     */
    method FindNext(doCs: bool) returns (r: Res<byte>)
      modifies this
      ensures Model.FindNext(env, old(Snapshot()), doCs) == Out(Snapshot(), r)
    {
      var sum: uint16 := Checksum.SEED;
      var cs: uint16 := 0;
      while true
        invariant Snapshot() == old(Snapshot()).(pos := pos)
        invariant Sync.Scan(env.file, env.e, pos, sum, cs, doCs) == Sync.FindNext(env.file, env.e, old(pos), doCs)
        decreases Sync.Remaining(env.file, pos)
      {
        var w := Read(2);
        if w.Raised? {
          return Raised(w.exc);
        }
        var val := Word(w.value[0], w.value[1], env.e);
        if SyncProbe(val, env.e) == SYNC && (!doCs || cs == sum) {
          pos := pos - 2;
          return Ok(CodeProbe(val, env.e));
        }
        sum := (sum + cs) % 0x1_0000;
        cs := val;
      }
    }

    /** `read_id`. */
    method ReadId() returns (r: Res<byte>)
      modifies this
      ensures Model.ReadId(env, old(Snapshot())) == Out(Snapshot(), r)
    {
      var b := Read(2);
      if b.Raised? {
        return Raised(b.exc);
      }
      if b.value[0] != SYNC {
        r := FindNext(false);
        if r.Ok? {
          pos := pos + 2;
        }
        return;
      }
      return Ok(b.value[1]);
    }

    /** `checksum(byts)`. */
    method CheckSum() returns (r: Res<()>)
      modifies this
      ensures Model.CheckSum(env, old(Snapshot())) == Out(Snapshot(), r)
    {
      if env.doChecksum {
        return Raised(TypeError);
      }
      pos := pos + 2;
      return Ok(());
    }

    // -------------------------------------------------------------------
    // Record routines.

    /** `read_vec_data`. */
    method ReadVecData() returns (r: Res<Option<int>>)
      modifies this, vec
      ensures Model.ReadVecData(env, old(Snapshot())) == Out(Snapshot(), r)
    {
      if VecData !in dtypes {
        dtypes := dtypes + [VecData];
      }
      var b := Read(VEC_DATA_SIZE);
      if b.Raised? {
        return Raised(b.exc);
      }
      r := StoreVec(b.value);
    }

    /** The decoding half of `read_vec_data`: the sample goes into slot `c`, then `c` advances. */
    method StoreVec(b: seq<byte>) returns (r: Res<Option<int>>)
      requires |b| == VEC_DATA_SIZE
      modifies this, vec
      ensures Model.StoreVec(env, old(Snapshot()), b) == Out(Snapshot(), r)
    {
      var slot := NpIndex(c, vec.Length);
      if slot.None? {
        return Raised(IndexError);
      }
      vec[slot.value] := Some(DecodeVec(b, env.e));
      var k := CheckSum();
      if k.Raised? {
        return Raised(k.exc);
      }
      c := c + 1;
      return Ok(None);
    }

    /** `read_vec_sysdata`. */
    method ReadVecSysdata() returns (r: Res<Option<int>>)
      modifies this, sys, burstStart
      ensures Model.ReadVecSysdata(env, old(Snapshot())) == Out(Snapshot(), r)
    {
      if Model.IsBurstStart(lastread) {
        var slot := NpIndex(c, burstStart.Length);
        if slot.None? {
          return Raised(IndexError);
        }
        burstStart[slot.value] := true;
      }
      if VecSysData !in dtypes {
        dtypes := dtypes + [VecSysData];
      }
      var b := Read(SYS_DATA_SIZE);
      if b.Raised? {
        return Raised(b.exc);
      }
      r := StoreSys(b.value);
    }

    /** The decoding half of `read_vec_sysdata`: the clock and status go into slot `c`. */
    method StoreSys(b: seq<byte>) returns (r: Res<Option<int>>)
      requires |b| == SYS_DATA_SIZE
      modifies this, sys
      ensures Model.StoreSys(env, old(Snapshot()), b) == Out(Snapshot(), r)
    {
      var t := DecodeStamp(b[2..8], true);
      if !ValidStamp(t) {
        return Raised(ValueError);
      }
      var slot := NpIndex(c, sys.Length);
      if slot.None? {
        return Raised(IndexError);
      }
      sys[slot.value] := SysRow(Some(t), Some(DecodeSysFields(b[8..24], env.e)));
      var k := CheckSum();
      if k.Raised? {
        return Raised(k.exc);
      }
      return Ok(None);
    }

    /**
     * The IMU column writes of one record, in layout order and in place at
     * slot `c`; a missing variable or slot stops them.
     */
    method WriteImu(payload: seq<byte>, ws: seq<(ImuVar, nat, nat)>) returns (err: Option<Exc>)
      requires forall j :: 0 <= j < |ws| ==> ws[j].1 <= ws[j].2 <= |payload|
      modifies imu
      ensures Records.WriteImu(old(imu[..]), imuVars, KeyError, c, payload, ws) == (imu[..], err)
    {
      var j := 0;
      while j < |ws|
        invariant 0 <= j <= |ws|
        invariant Records.WriteImu(imu[..], imuVars, KeyError, c, payload, ws[j..])
               == Records.WriteImu(old(imu[..]), imuVars, KeyError, c, payload, ws)
      {
        assert ws[j..][1..] == ws[j + 1..];
        var (v, from, to) := ws[j];
        if v !in imuVars {
          return Some(KeyError);
        }
        match NpIndex(c, imu.Length) {
          case None => return Some(IndexError);
          case Some(i) => imu[i] := imu[i][v := payload[from..to]];
        }
        j := j + 1;
      }
      assert ws[j..] == [];
      return None;
    }

    /** `read_microstrain`. */
    method ReadMicrostrain() returns (r: Res<Option<int>>)
      modifies this, imu
      ensures Model.ReadMicrostrain(env, old(Snapshot())) == Out(Snapshot(), r)
    {
      ghost var s0 := Snapshot();
      if c != 0 {
        c := c - 1;
      }
      ghost var s1 := Snapshot();
      assert s1 == if s0.c == 0 then s0 else s0.(c := s0.c - 1);
      var h := Read(IMU_HEAD_SIZE);
      if h.Raised? {
        return Raised(h.exc);
      }
      assert Model.ReadMicrostrain(env, s0) == Model.AfterImuHead(env, Snapshot(), AhrsId(h.value));
      r := AfterImuHead(AhrsId(h.value));
    }

    /** The rest of `read_microstrain` once the record head, with AHRS id `ahrs`, is read. */
    method AfterImuHead(ahrs: byte) returns (r: Res<Option<int>>)
      requires pos >= 2
      modifies this, imu
      ensures Model.AfterImuHead(env, old(Snapshot()), ahrs) == Out(Snapshot(), r)
    {
      if ahrs in {195, 204, 210, 211} {
        ahrsid := Some(ahrs);
      }
      hasImu := true;
      if Accel !in imuVars {
        dtypes := dtypes + [Microstrain];
        imuVars := imuVars + Model.ImuVarsFor(ahrs);
      }
      r := ReadImuPayload(ahrs);
    }

    /** The payload part of `read_microstrain`. */
    method ReadImuPayload(ahrs: byte) returns (r: Res<Option<int>>)
      requires pos >= 2
      modifies this, imu
      ensures Model.ReadImuPayload(env, old(Snapshot()), ahrs) == Out(Snapshot(), r)
    {
      var layout := Model.ImuLayout(ahrs);
      if layout.None? {
        pos := pos - 2;
        return Ok(Some(10));
      }
      var p := Read(layout.value.0);
      if p.Raised? {
        return Raised(p.exc);
      }
      var err := WriteImu(p.value, layout.value.1);
      if err.Some? {
        return Raised(err.value);
      }
      var k := CheckSum();
      if k.Raised? {
        return Raised(k.exc);
      }
      c := c + 1;
      return Ok(None);
    }

    /** `read_vec_hdr`. */
    method ReadVecHdr() returns (r: Res<Option<int>>)
      modifies this
      ensures Model.ReadVecHdr(env, old(Snapshot())) == Out(Snapshot(), r)
    {
      var b := Read(VEC_HDR_SIZE);
      if b.Raised? {
        return Raised(b.exc);
      }
      if !ValidStamp(DecodeStamp(b.value[2..8], true)) {
        return Raised(ValueError);
      }
      if !ValidUtf8(b.value[13..14]) || !ValidUtf8(b.value[17..38]) {
        return Raised(UnicodeDecodeError);
      }
      var k := CheckSum();
      r := if k.Raised? then Raised(k.exc) else Ok(None);
    }

    /** `read_vec_checkdata`. */
    method ReadVecCheckdata() returns (r: Res<Option<int>>)
      modifies this
      ensures Model.ReadVecCheckdata(env, old(Snapshot())) == Out(Snapshot(), r)
    {
      var h := Read(CHECK_HEAD_SIZE);
      if h.Raised? {
        return Raised(h.exc);
      }
      var a := Read(3 * U16At(h.value, 2, env.e));
      if a.Raised? {
        return Raised(a.exc);
      }
      var k := CheckSum();
      r := if k.Raised? then Raised(k.exc) else Ok(None);
    }

    /** `read_awac_profile`. */
    method ReadAwacProfile() returns (r: Res<Option<int>>)
      modifies this, prof
      ensures Model.ReadAwacProfile(env, old(Snapshot())) == Out(Snapshot(), r)
    {
      var nbins := config.nbins;
      if AwacProfile !in dtypes {
        dtypes := dtypes + [AwacProfile];
      }
      ProfileSizeEven(nbins);
      var b := Read(ProfileSize(nbins));
      if b.Raised? {
        return Raised(b.exc);
      }
      r := StoreProfile(b.value);
    }

    /** The decoding half of `read_awac_profile`: the sample goes into slot `c`. */
    method StoreProfile(b: seq<byte>) returns (r: Res<Option<int>>)
      requires |b| == ProfileSize(config.nbins)
      modifies this, prof
      ensures Model.StoreProfile(env, old(Snapshot()), b) == Out(Snapshot(), r)
    {
      var nbins := config.nbins;
      var t := DecodeStamp(b[2..8], true);
      if !ValidStamp(t) {
        return Raised(ValueError);
      }
      var row := ProfileRow(Some(t), Some(DecodeProfileHead(b[8..28], env.e)),
                            Some(DecodeBins(b[116..116 + 9 * nbins as nat], nbins, env.e)));
      var slot := NpIndex(c, prof.Length);
      if slot.None? {
        return Raised(IndexError);
      }
      prof[slot.value] := row;
      var k := CheckSum();
      if k.Raised? {
        return Raised(k.exc);
      }
      c := c + 1;
      return Ok(None);
    }

    /** `read_hw_cfg`. */
    method ReadHwCfg() returns (r: Res<Option<int>>)
      modifies this
      ensures Model.ReadHwCfg(env, old(Snapshot())) == Out(Snapshot(), r)
    {
      var b := Read(HW_CFG_SIZE);
      if b.Raised? {
        return Raised(b.exc);
      }
      if !ValidUtf8(HwSerial(b.value)) {
        return Raised(UnicodeDecodeError);
      }
      config := config.(serial := HwSerial(b.value));
      if !ValidUtf8(HwFirmware(b.value)) {
        return Raised(UnicodeDecodeError);
      }
      var k := CheckSum();
      r := if k.Raised? then Raised(k.exc) else Ok(None);
    }

    /** `read_head_cfg`. */
    method ReadHeadCfg() returns (r: Res<Option<int>>)
      modifies this
      ensures Model.ReadHeadCfg(env, old(Snapshot())) == Out(Snapshot(), r)
    {
      var b := Read(HEAD_CFG_SIZE);
      if b.Raised? {
        return Raised(b.exc);
      }
      var k := CheckSum();
      r := if k.Raised? then Raised(k.exc) else Ok(None);
    }

    /** `read_user_cfg`. */
    method ReadUserCfg() returns (r: Res<Option<int>>)
      modifies this
      ensures Model.ReadUserCfg(env, old(Snapshot())) == Out(Snapshot(), r)
    {
      var b := Read(USER_CFG_SIZE);
      if b.Raised? {
        return Raised(b.exc);
      }
      config := config.(avgInterval := UserAvgInterval(b.value, env.e));
      var coord := UserCoordIndex(b.value, env.e);
      if CoordLabel(coord).None? {
        return Raised(IndexError);
      }
      config := config.(coordAxes := coord, nbins := UserNBins(b.value, env.e),
                        measInterval := UserMeasInterval(b.value, env.e));
      if !ValidUtf8(BeforeNul(UserDeployName(b.value))) || !ValidUtf8(BeforeNul(UserComments(b.value))) {
        return Raised(UnicodeDecodeError);
      }
      config := config.(nburst := UserNBurst(b.value, env.e));
      var k := CheckSum();
      r := if k.Raised? then Raised(k.exc) else Ok(None);
    }

    /** The routine `fun_map` names for `k`. */
    method Routine(k: Kind) returns (r: Res<Option<int>>)
      modifies this, vec, sys, imu, prof, burstStart
      ensures Model.Routine(env, old(Snapshot()), k) == Out(Snapshot(), r)
    {
      match k
      case UserCfg => r := ReadUserCfg();
      case HeadCfg => r := ReadHeadCfg();
      case HwCfg => r := ReadHwCfg();
      case VecCheckData => r := ReadVecCheckdata();
      case VecData => r := ReadVecData();
      case VecSysData => r := ReadVecSysdata();
      case VecHdr => r := ReadVecHdr();
      case Microstrain => r := ReadMicrostrain();
      case AwacProfile => r := ReadAwacProfile();
    }

    /** `readnext`. */
    method ReadNext() returns (r: Res<Option<int>>)
      modifies this, vec, sys, imu, prof, burstStart
      ensures Model.ReadNext(env, old(Snapshot())) == Out(Snapshot(), r)
    {
      var id := ReadId();
      if id.Raised? {
        return Raised(id.exc);
      }
      match KindOfCode(id.value) {
        case None =>
          pos := pos - 2;
          return Ok(Some(10));
        case Some(k) =>
          r := Routine(k);
          if r.Ok? {
            lastread := [Some(k)] + Model.DropLast(lastread);
          }
      }
    }

    /**
     * The `while` loop of `readfile(nlines)`: read records until
     * `c == nlines`, the ping limit, or the end of the file.
     */
    method ReadRecords(nlines: Option<int>) returns (r: Res<()>)
      modifies this, vec, sys, imu, prof, burstStart
      ensures Model.ReadLoop(env, old(Snapshot()), nlines) == Out(Snapshot(), r)
    {
      while true
        invariant Model.ReadLoop(env, Snapshot(), nlines) == Model.ReadLoop(env, old(Snapshot()), nlines)
        decreases Sync.Remaining(env.file, pos)
      {
        ghost var s := Snapshot();
        if nlines == Some(c) {
          break;
        }
        var retval := ReadNext();
        if retval.Raised? {
          if retval.exc == EofError {
            assert Model.ReadLoop(env, s, nlines) == Out(Snapshot(), Ok(()));
            break;
          }
          return Raised(retval.exc);
        }
        if retval.value == Some(10) {
          var f := FindNext(true);
          if f.Raised? {
            assert Model.ReadLoop(env, s, nlines) == Out(Snapshot(), Ok(()));
            break;
          }
        }
        ghost var bound := Sync.Remaining(env.file, s.pos);
        assert Model.ReadLoop(env, s, nlines) == Model.AfterRecord(env, Snapshot(), nlines, bound);
        if env.npings.Some? && c >= env.npings.value {
          if Microstrain in dtypes {
            var _ := ReadNext();
          }
          break;
        }
      }
      return Ok(());
    }

    /** `readfile(nlines)`: the loop, then `c` stepped back by one. */
    method ReadFile(nlines: Option<int>) returns (r: Res<()>)
      modifies this, vec, sys, imu, prof, burstStart
      ensures Model.ReadFile(env, old(Snapshot()), nlines) == Out(Snapshot(), r)
    {
      r := ReadRecords(nlines);
      ghost var l := Out(Snapshot(), r);
      if r.Ok? {
        c := c - 1;
        r := Ok(());
      }
      assert Model.FinishFile(l) == Out(Snapshot(), r);
    }

    // -------------------------------------------------------------------
    // Header phase.

    /** One pass of the `findnextid` loop: read an id and seek past the record. */
    method SkipRecord() returns (r: Res<byte>)
      modifies this
      ensures Model.SkipRecord(env, old(Snapshot())) == Out(Snapshot(), r)
    {
      r := ReadId();
      if r.Raised? {
        return;
      }
      if r.value == 16 {
        pos := pos + 22;
        return;
      }
      var z := Read(2);
      if z.Raised? {
        return Raised(z.exc);
      }
      pos := pos + 2 * U16At(z.value, 0, env.e) - 4;
    }

    /**
     * `findnextid(id)`. The passes are counted so that a search that has
     * made more passes than the file has offsets, which Python would
     * repeat forever, ends with `Diverges`.
     */
    method FindNextId(id: byte) returns (r: Res<nat>)
      modifies this
      ensures Model.FindNextId(env, old(Snapshot()), id, 0) == Out(Snapshot(), r)
    {
      var passes := 0;
      while true
        invariant Model.FindNextId(env, Snapshot(), id, passes) == Model.FindNextId(env, old(Snapshot()), id, 0)
        decreases |env.file| + 1 - passes
      {
        if passes > |env.file| {
          return Raised(Diverges);
        }
        var nowid := SkipRecord();
        if nowid.Raised? {
          return Raised(nowid.exc);
        }
        if nowid.value == id {
          return Ok(pos);
        }
        passes := passes + 1;
      }
    }

    /**
     * The `for i in range(iternum)` loop of `code_spacing`: one
     * `findnextid` per pass until `EOFError`; returns `i + 1` for the last
     * pass made.
     */
    method SpacingPasses(id: byte, iternum: nat) returns (r: Res<nat>)
      requires iternum > 0
      modifies this
      ensures Model.SpacingLoop(env, old(Snapshot()), id, 0, iternum) == Out(Snapshot(), r)
    {
      var i := 0;
      while true
        invariant i < iternum
        invariant Model.SpacingLoop(env, Snapshot(), id, i, iternum) == Model.SpacingLoop(env, old(Snapshot()), id, 0, iternum)
        decreases iternum - i
      {
        ghost var s := Snapshot();
        var f := FindNextId(id);
        if f.Raised? {
          if f.exc == EofError {
            r := Ok(i + 1);
            assert Model.SpacingLoop(env, s, id, i, iternum) == Out(Snapshot(), r);
            return;
          }
          return Raised(f.exc);
        }
        if i + 1 == iternum {
          r := Ok(iternum);
          assert Model.SpacingLoop(env, s, id, i, iternum) == Out(Snapshot(), r);
          return;
        }
        i := i + 1;
      }
    }

    /** `code_spacing(id, iternum)`: returns the bytes spanned and the passes counted. */
    method CodeSpacing(id: byte, iternum: nat) returns (r: Res<(nat, nat)>)
      modifies this
      ensures Model.CodeSpacing(env, old(Snapshot()), id, iternum) == Out(Snapshot(), r)
    {
      ghost var s0 := Snapshot();
      var p0 := FindNextId(id);
      if p0.Raised? {
        return Raised(p0.exc);
      }
      if iternum == 0 {
        return Raised(UnboundLocalError);
      }
      assert Model.CodeSpacing(env, s0, id, iternum) == Model.SpacingFrom(env, Snapshot(), p0.value, id, iternum);
      r := SpacingFrom(p0.value, id, iternum);
    }

    /** The passes of `code_spacing` after the first record, found at `p0`. */
    method SpacingFrom(p0: nat, id: byte, iternum: nat) returns (r: Res<(nat, nat)>)
      requires iternum > 0 && p0 <= pos
      modifies this
      ensures Model.SpacingFrom(env, old(Snapshot()), p0, id, iternum) == Out(Snapshot(), r)
    {
      var count := SpacingPasses(id, iternum);
      if count.Raised? {
        return Raised(count.exc);
      }
      return Ok((pos - p0, count.value));
    }

    /**
     * `init_ADV` or `init_AWAC`, then the `npings` override: the column
     * capacity; the offset is sought back to where it was.
     */
    method Capacity(nens: Model.Nens) returns (r: Res<int>)
      modifies this
      ensures Model.Capacity(env, old(Snapshot()), nens) == r
      ensures Snapshot() == old(Snapshot())
    {
      var pnow := pos;
      var si := SerialInst(config.serial);
      if si.None? {
        return Raised(KeyError);
      }
      var inst := si.value;
      var code := if inst == Adv then CodeOf(VecSysData) else CodeOf(AwacProfile);
      var sp := CodeSpacing(code, 50);
      pos := pnow;
      r := Model.CapacityOf(inst, |env.file|, sp, config.avgInterval, nens);
    }

    /** The hardware, head and user configuration records, in that order. */
    method ReadHeader() returns (r: Res<()>)
      modifies this
      ensures Model.ReadHeader(env, old(Snapshot())) == Out(Snapshot(), r)
    {
      var i1 := ReadId();
      if i1.Raised? {
        return Raised(i1.exc);
      }
      if i1.value != CodeOf(HwCfg) {
        return Raised(NotNortek);
      }
      var h := ReadHwCfg();
      if h.Raised? {
        return Raised(h.exc);
      }
      var i2 := ReadId();
      if i2.Raised? {
        return Raised(i2.exc);
      }
      if i2.value != CodeOf(HeadCfg) {
        return Raised(NotNortek);
      }
      var d := ReadHeadCfg();
      if d.Raised? {
        return Raised(d.exc);
      }
      var i3 := ReadId();
      if i3.Raised? {
        return Raised(i3.exc);
      }
      if i3.value != CodeOf(UserCfg) {
        return Raised(NotNortek);
      }
      var u := ReadUserCfg();
      r := if u.Raised? then Raised(u.exc) else Ok(());
    }
  }

  /**
   * `NortekReader(fname, endian, do_checksum, nens)`: the header is read by
   * a reader without columns, which are allocated once the capacity guess
   * is known; the reader returned starts right after the header.
   */
  method Open(file: seq<byte>, endian: Option<Endian>, doChecksum: bool, nens: Model.Nens) returns (r: Res<NortekReader>)
    ensures var m := Model.Open(file, endian, doChecksum, nens);
            && (r.Raised? <==> m.Raised?)
            && (r.Raised? ==> r.exc == m.exc)
            && (r.Ok? ==> fresh(r.value) && r.value.env == m.value.0 && r.value.Snapshot() == m.value.1)
  {
    var e := if endian.Some? then Ok(endian.value) else Model.DetectEndian(file);
    if e.Raised? {
      return Raised(e.exc);
    }
    var env0 := Model.Env(file, e.value, doChecksum, 0, Model.NpingsOf(nens));
    var rd := new NortekReader.FromState(env0, Model.Fresh(0));
    var h := rd.ReadHeader();
    if h.Raised? {
      return Raised(h.exc);
    }
    var n := rd.Capacity(nens);
    if n.Raised? {
      return Raised(n.exc);
    }
    if n.value < 0 {
      return Raised(ValueError);
    }
    var reader := new NortekReader.FromState(env0.(nSampGuess := n.value), Model.Fresh(n.value).(pos := rd.pos, config := rd.config));
    return Ok(reader);
  }
}
