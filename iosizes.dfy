// How the seek sanity test learns the filesystem's allocation unit before it
// builds its test files (get_io_sizes).  On XFS the unit comes from the
// filesystem geometry.  Anywhere else the test starts from st_blksize and
// probes: it truncates the file, writes one byte at a chosen offset, and
// asks SEEK_DATA from 0 where the data starts.  A filesystem that allocates
// in units of U bytes reports the start of the unit holding that byte.

module IoSizes {
  import opened SeekModel

  type Positive = n: nat | n >= 1 witness 1

  /** What the XFS geometry and attribute ioctls report, when the file is on XFS. */
  datatype XfsAnswer = NotXfs | Xfs(blocksize: nat, realtime: bool, rtextsize: nat)

  /** What fstat reports. */
  datatype StatAnswer = StatFailed | Stat(blksize: nat)

  /**
   * The environment get_io_sizes runs in: the two queries it makes, the
   * filesystem's real allocation unit, and whether lseek knows SEEK_DATA.
   */
  datatype Env = Env(xfs: XfsAnswer, stat: StatAnswer, unit: Positive, seekData: bool)

  /** The outcome of get_io_sizes: the allocation size it settles on, or why it gave up. */
  datatype Sizes = Found(allocSize: int) | FstatError | NoSeekData

  /** The state of one of the probing loops: where it stopped, or that a probe failed. */
  datatype Probing = At(offset: int, pos: int, shift: nat) | Aborted

  /** Where the allocation unit holding byte offset starts: the largest multiple of the unit not above offset. */
  function UnitStart(unit: Positive, offset: nat): (r: nat)
    ensures r <= offset < r + unit
    ensures r == 0 <==> offset < unit
    decreases offset
  {
    if offset < unit then 0 else unit + UnitStart(unit, offset - unit)
  }

  /** UnitStart is the usual rounding down to a multiple of the unit. */
  lemma {:induction false} UnitStartRoundsDown(unit: Positive, offset: nat)
    ensures UnitStart(unit, offset) == (offset / unit) * unit
    decreases offset
  {
    if offset >= unit {
      UnitStartRoundsDown(unit, offset - unit);
      var d, m := (offset - unit) / unit, (offset - unit) % unit;
      assert offset - unit == d * unit + m && m < unit;
      assert (d + 1) * unit == d * unit + unit;
      DivisionUnique(offset, unit, d + 1, m);
    } else {
      DivisionUnique(offset, unit, 0, offset);
    }
  }

  /** Dividing a = q * b + r by b, with 0 <= r < b, gives q. */
  lemma DivisionUnique(a: nat, b: Positive, q: nat, r: nat)
    requires a == q * b + r && r < b
    ensures a / b == q
  {
    var q', r' := a / b, a % b;
    assert a == q' * b + r' && 0 <= r' < b;
    assert (q' + 1) * b == q' * b + b && (q + 1) * b == q * b + b;
    MultiplyMonotone(q' + 1, q, b);
    MultiplyMonotone(q + 1, q', b);
  }

  lemma MultiplyMonotone(x: int, y: int, b: nat)
    ensures x <= y ==> x * b <= y * b
  {
    assert y * b == x * b + (y - x) * b;
  }

  /** The file after ftruncate(fd, 0) and a one-byte pwrite at offset: only the unit holding that byte is allocated. */
  function ProbeFile(unit: Positive, offset: nat): File
  {
    var start := UnitStart(unit, offset);
    File(offset + 1, [Hole(start), Data(offset + 1 - start)])
  }

  /** One probe: where SEEK_DATA from 0 lands once a single byte is written at offset; -1 without SEEK_DATA. */
  function Probe(env: Env, offset: nat): int
  {
    if env.seekData then UnitStart(env.unit, offset) else -1
  }

  /** The probe is lseek(fd, 0, SEEK_DATA) on the probe file. */
  lemma ProbeIsSeekData(env: Env, offset: nat)
    requires env.seekData
    ensures Probe(env, offset) == SeekDataOf(ProbeFile(env.unit, offset), 0)
  {
    var f := ProbeFile(env.unit, offset);
    var start := UnitStart(env.unit, offset);
    assert f.runs[1..] == [Data(offset + 1 - start)];
    assert NextData(f.runs[1..], 0) == 0;
  }

  /** So a probe answers one question: whether the offset has reached the allocation unit. */
  lemma ProbeDetectsUnit(env: Env, offset: nat)
    requires env.seekData
    ensures 0 <= Probe(env, offset) <= offset
    ensures Probe(env, offset) != 0 <==> offset >= env.unit
  {
  }

  // ---------------------------------------------------------------------
  // The two loops of get_io_sizes, one iteration per recursive call.

  /** The doubling loop: while no data shows before the byte and offset < bs, double the offset and probe. */
  function Doubling(env: Env, bs: nat, offset: int, pos: int): (r: Probing)
    requires offset >= 1
    ensures r.At? ==> r.offset >= offset && (r.pos != 0 || r.offset >= bs)
    ensures r.Aborted? ==> !env.seekData
    decreases bs - offset
  {
    if pos == 0 && offset < bs then
      var p := Probe(env, 2 * offset);
      if p == -1 then Aborted else Doubling(env, bs, 2 * offset, p)
    else At(offset, pos, 0)
  }

  /** The bisection loop: step down after a probe that shows data before the byte, up otherwise, halving the step. */
  function Bisect(env: Env, bs: nat, offset: int, shift: nat, pos: int): (r: Probing)
    requires offset >= 1 && offset >= 4 * shift
    ensures r.At? ==> r.offset >= 1 && (r.shift == 0 || r.offset >= bs)
    ensures r.Aborted? ==> !env.seekData
    decreases shift
  {
    if shift != 0 && offset < bs then
      var p := Probe(env, offset);
      if p == -1 then Aborted
      else if p != 0 then Bisect(env, bs, offset - shift, shift / 2, p)
      else Bisect(env, bs, offset + shift, shift / 2, p)
    else At(offset, pos, shift)
  }

  /** get_io_sizes, as a function of its environment. */
  function IoSizesSpec(env: Env): (r: Sizes)
    ensures r == FstatError <==> env.xfs == NotXfs && env.stat == StatFailed
    ensures r == NoSeekData ==> env.xfs == NotXfs && env.stat.Stat? && !env.seekData
    ensures env.xfs == NotXfs && r.Found? ==> r.allocSize >= 1
  {
    match env.xfs
    case Xfs(b, rt, e) => Found(b * (if rt then e else 1))
    case NotXfs =>
      match env.stat
      case StatFailed => FstatError
      case Stat(bs) =>
        match Doubling(env, bs, 1, 0)
        case Aborted => NoSeekData
        case At(o, p, _) =>
          match Bisect(env, bs, o, o / 4, p)
          case Aborted => NoSeekData
          case At(o', p', s) => Found(if s == 0 && p' == 0 then o' + 1 else o')
  }

  /** get_io_sizes: the XFS geometry if there is one, otherwise doubling then bisecting probes. */
  method GetIoSizes(env: Env) returns (r: Sizes)
    ensures r == IoSizesSpec(env)
  {
    if env.xfs.Xfs? {
      var b := env.xfs.blocksize;
      if env.xfs.realtime {
        b := b * env.xfs.rtextsize;
      }
      return Found(b);
    }
    if env.stat.StatFailed? {
      return FstatError;
    }
    var bs := env.stat.blksize;
    var pos: int, offset: int := 0, 1;
    while pos == 0 && offset < bs
      invariant offset >= 1
      invariant Doubling(env, bs, offset, pos) == Doubling(env, bs, 1, 0)
      decreases bs - offset
    {
      offset := offset * 2;
      pos := Probe(env, offset);
      if pos == -1 {
        return NoSeekData;
      }
    }
    ghost var start: nat, startPos := offset, pos;
    var shift: nat := offset / 4;
    while shift != 0 && offset < bs
      invariant offset >= 1 && offset >= 4 * shift
      invariant Bisect(env, bs, offset, shift, pos) == Bisect(env, bs, start, start / 4, startPos)
      decreases shift
    {
      pos := Probe(env, offset);
      if pos == -1 {
        return NoSeekData;
      }
      offset := if pos != 0 then offset - shift else offset + shift;
      shift := shift / 2;
    }
    if shift == 0 {
      offset := offset + (if pos != 0 then 0 else 1);
    }
    return Found(offset);
  }

  // ---------------------------------------------------------------------
  // What the probing finds.

  function Pow2(k: nat): Positive
  {
    if k == 0 then 1 else 2 * Pow2(k - 1)
  }

  lemma {:induction false} Pow2Grows(j: nat, k: nat)
    requires j < k
    ensures 2 * Pow2(j) <= Pow2(k)
    decreases k - j
  {
    if j + 1 < k {
      Pow2Grows(j + 1, k);
    }
  }

  /** With a power-of-two unit no larger than bs, doubling from a smaller power of two stops exactly at the unit. */
  lemma {:induction false} DoublingReachesUnit(env: Env, bs: nat, j: nat, k: nat)
    requires env.seekData && env.unit == Pow2(k) <= bs && j < k
    ensures Doubling(env, bs, Pow2(j), 0) == At(env.unit, env.unit, 0)
    decreases k - j
  {
    Pow2Grows(j, k);
    var o := 2 * Pow2(j);
    assert o == Pow2(j + 1);
    if j + 1 < k {
      Pow2Grows(j + 1, k);
      assert Probe(env, o) == 0;
      DoublingReachesUnit(env, bs, j + 1, k);
    } else {
      assert Probe(env, o) == UnitStart(env.unit, env.unit) == env.unit;
    }
  }

  /**
   * 2^k is the least power of two, from 2 up, that reaches the unit or bs:
   * 2^(k-1) reached neither (for k = 1, 2^0 = 1 only has to be below bs).
   */
  predicate FirstReach(unit: Positive, bs: nat, k: nat)
  {
    k >= 1 && (Pow2(k) >= unit || Pow2(k) >= bs) &&
    Pow2(k - 1) < bs && (k == 1 || Pow2(k - 1) < unit)
  }

  /** Below the first reaching power, no power of two from 2 up reaches the unit or bs. */
  lemma FirstReachLeast(unit: Positive, bs: nat, k: nat, i: nat)
    requires FirstReach(unit, bs, k) && 1 <= i < k
    ensures Pow2(i) < unit && Pow2(i) < bs
  {
    if i < k - 1 {
      Pow2Grows(i, k - 1);
    }
  }

  /** So the first reaching power is unique. */
  lemma FirstReachUnique(unit: Positive, bs: nat, k1: nat, k2: nat)
    requires FirstReach(unit, bs, k1) && FirstReach(unit, bs, k2)
    ensures k1 == k2
  {
    if k1 < k2 {
      FirstReachLeast(unit, bs, k2, k1);
    } else if k2 < k1 {
      FirstReachLeast(unit, bs, k1, k2);
    }
  }

  /** Doubling from 2^j with no data seen yet stops at the first reaching power, holding the probe taken there. */
  lemma {:induction false} DoublingFrom(env: Env, bs: nat, j: nat)
    requires env.seekData && Pow2(j) < bs && (j >= 1 ==> Pow2(j) < env.unit)
    ensures exists k :: j < k && FirstReach(env.unit, bs, k) &&
              Doubling(env, bs, Pow2(j), 0) == At(Pow2(k), UnitStart(env.unit, Pow2(k)), 0)
    decreases bs - Pow2(j)
  {
    var o := Pow2(j + 1);
    assert o == 2 * Pow2(j);
    if o >= env.unit || o >= bs {
      assert FirstReach(env.unit, bs, j + 1);
      assert Doubling(env, bs, Pow2(j), 0) == At(o, UnitStart(env.unit, o), 0);
    } else {
      assert Doubling(env, bs, Pow2(j), 0) == Doubling(env, bs, Pow2(j + 1), 0);
      DoublingFrom(env, bs, j + 1);
    }
  }

  /**
   * The doubling loop, for every unit and st_blksize: with bs <= 1 it does
   * not run; otherwise it stops at the least power of two 2^k (k >= 1) that
   * reaches the unit or st_blksize, with the probe taken at that offset.
   */
  lemma DoublingStops(env: Env, bs: nat)
    requires env.seekData
    ensures bs <= 1 ==> Doubling(env, bs, 1, 0) == At(1, 0, 0)
    ensures bs >= 2 ==>
      exists k :: FirstReach(env.unit, bs, k) &&
        Doubling(env, bs, 1, 0) == At(Pow2(k), UnitStart(env.unit, Pow2(k)), 0)
  {
    if bs >= 2 {
      DoublingFrom(env, bs, 0);
    }
  }

  /** The total distance the bisection moves when every step goes the same way: shift + shift/2 + ... */
  function StepSum(shift: nat): nat
  {
    if shift == 0 then 0 else shift + StepSum(shift / 2)
  }

  lemma {:induction false} StepSumPow2(t: nat)
    ensures StepSum(Pow2(t)) == 2 * Pow2(t) - 1
  {
    if t > 0 {
      assert Pow2(t) / 2 == Pow2(t - 1);
      StepSumPow2(t - 1);
    }
  }

  /** While every probe stays below the unit, the bisection only climbs, by the sum of its steps. */
  lemma {:induction false} BisectClimbs(env: Env, bs: nat, offset: nat, shift: nat, pos: int)
    requires env.seekData && shift >= 1 && offset >= 4 * shift
    requires offset + StepSum(shift) <= env.unit <= bs
    ensures Bisect(env, bs, offset, shift, pos) == At(offset + StepSum(shift), 0, 0)
    decreases shift
  {
    assert Probe(env, offset) == 0;
    assert Bisect(env, bs, offset, shift, pos) == Bisect(env, bs, offset + shift, shift / 2, 0);
    if shift / 2 != 0 {
      BisectClimbs(env, bs, offset + shift, shift / 2, 0);
    }
  }

  /** Bisection from a unit of 8q bytes, with q a power of two: one step down past the unit, then the climb back. */
  lemma BisectFromUnit(env: Env, bs: nat, q: nat, pos: int)
    requires env.seekData && env.unit == 8 * q < bs && q >= 1 && StepSum(q) == 2 * q - 1
    ensures Bisect(env, bs, env.unit, 2 * q, pos) == At(env.unit - 1, 0, 0)
  {
    var p := Probe(env, env.unit);
    assert p == env.unit;
    assert (2 * q) / 2 == q;
    assert Bisect(env, bs, env.unit, 2 * q, pos) == Bisect(env, bs, env.unit - 2 * q, q, p);
    BisectClimbs(env, bs, env.unit - 2 * q, q, p);
  }

  /**
   * When the allocation unit is a power of two of at least 8 bytes and no
   * larger than st_blksize, get_io_sizes finds it exactly.
   */
  lemma PowerOfTwoUnitFound(env: Env, k: nat)
    requires env.xfs == NotXfs && env.stat.Stat? && env.seekData
    requires k >= 3 && env.unit == Pow2(k) <= env.stat.blksize
    ensures IoSizesSpec(env) == Found(env.unit)
  {
    var bs, u := env.stat.blksize, env.unit;
    DoublingReachesUnit(env, bs, 0, k);
    var q: nat := Pow2(k - 3);
    assert u == 8 * q by {
      assert Pow2(k) == 2 * Pow2(k - 1) == 4 * Pow2(k - 2);
    }
    assert u / 4 == 2 * q;
    if u < bs {
      StepSumPow2(k - 3);
      BisectFromUnit(env, bs, q, u);
    }
  }

  /** On XFS the geometry decides, without any probe. */
  lemma XfsGeometryDecides(env: Env)
    requires env.xfs.Xfs?
    ensures IoSizesSpec(env) == Found(env.xfs.blocksize * (if env.xfs.realtime then env.xfs.rtextsize else 1))
  {
  }

  /** Without SEEK_DATA the first probe fails, as soon as st_blksize lets the doubling loop start. */
  lemma NoSeekDataDetected(env: Env)
    requires env.xfs == NotXfs && env.stat.Stat? && env.stat.blksize > 1 && !env.seekData
    ensures IoSizesSpec(env) == NoSeekData
  {
  }

  // ---------------------------------------------------------------------
  // Units the probing misreads, and a search that does not.

  function SmallUnitEnv(unit: Positive): Env
  {
    Env(NotXfs, Stat(4096), unit, true)
  }

  /** A 4-byte unit is read as 3: the bisection starts with a step of 1 and ends on a probe that saw data. */
  lemma FourByteUnitMisread()
    ensures IoSizesSpec(SmallUnitEnv(4)) == Found(3)
  {
    var env := SmallUnitEnv(4);
    assert Probe(env, 2) == 0 && Probe(env, 4) == 4;
    assert Doubling(env, 4096, 4, 4) == At(4, 4, 0);
    assert Doubling(env, 4096, 2, 0) == At(4, 4, 0);
    assert Bisect(env, 4096, 3, 0, 4) == At(3, 4, 0);
  }

  /** A 1-byte unit is read as 2: the first probe already sees data and the loop never tries offset 1. */
  lemma ByteUnitMisread()
    ensures IoSizesSpec(SmallUnitEnv(1)) == Found(2)
  {
    var env := SmallUnitEnv(1);
    assert Probe(env, 2) == 2;
    assert Doubling(env, 4096, 2, 2) == At(2, 2, 0);
  }

  /** A 6-byte unit is read as 5: doubling stops at 8, and the bisection's last probe, at 6, sees data. */
  lemma SixByteUnitMisread()
    ensures IoSizesSpec(SmallUnitEnv(6)) == Found(5)
  {
    var env := SmallUnitEnv(6);
    assert Probe(env, 2) == 0 && Probe(env, 4) == 0 && Probe(env, 8) == 6 && Probe(env, 6) == 6;
    assert Doubling(env, 4096, 8, 6) == At(8, 6, 0);
    assert Doubling(env, 4096, 4, 0) == At(8, 6, 0);
    assert Doubling(env, 4096, 2, 0) == At(8, 6, 0);
    assert Bisect(env, 4096, 5, 0, 6) == At(5, 6, 0);
    assert Bisect(env, 4096, 6, 1, 6) == At(5, 6, 0);
  }

  /** The allocation size get_io_sizes is after: the unit, capped at st_blksize (taken as at least 1). */
  function AllocUnitSpec(env: Env): (r: Sizes)
    ensures env.xfs == NotXfs && env.stat.Stat? && env.seekData ==>
      r.Found? && 1 <= r.allocSize <= env.unit &&
      (r.allocSize < env.unit ==> r.allocSize == env.stat.blksize || (env.stat.blksize == 0 && r.allocSize == 1))
    ensures r == NoSeekData <==> env.xfs == NotXfs && env.stat.Stat? && !env.seekData
  {
    match env.xfs
    case Xfs(b, rt, e) => Found(b * (if rt then e else 1))
    case NotXfs =>
      match env.stat
      case StatFailed => FstatError
      case Stat(bs) =>
        if !env.seekData then NoSeekData
        else
          var top := if bs >= 1 then bs else 1;
          Found(if env.unit <= top then env.unit else top)
  }

  /** On power-of-two units of 8 bytes or more, the probing of get_io_sizes meets that aim. */
  lemma PowerOfTwoMatchesAim(env: Env, k: nat)
    requires env.xfs == NotXfs && env.stat.Stat? && env.seekData
    requires k >= 3 && env.unit == Pow2(k) <= env.stat.blksize
    ensures IoSizesSpec(env) == AllocUnitSpec(env)
  {
    PowerOfTwoUnitFound(env, k);
  }

  /**
   * The probing done as a binary search for the least offset whose probe
   * sees data before the written byte; a first probe at 0 checks that
   * SEEK_DATA works at all.
   */
  method GetIoSizesBisected(env: Env) returns (r: Sizes)
    ensures r == AllocUnitSpec(env)
  {
    if env.xfs.Xfs? {
      var b := env.xfs.blocksize;
      if env.xfs.realtime {
        b := b * env.xfs.rtextsize;
      }
      return Found(b);
    }
    if env.stat.StatFailed? {
      return FstatError;
    }
    var support := Probe(env, 0);
    if support == -1 {
      return NoSeekData;
    }
    var top := if env.stat.blksize >= 1 then env.stat.blksize else 1;
    ghost var target := if env.unit <= top then env.unit else top;
    var lo, hi := 1, top;
    while lo < hi
      invariant 1 <= lo <= target <= hi <= top
      decreases hi - lo
    {
      var mid := (lo + hi) / 2;
      var pos := Probe(env, mid);
      ProbeDetectsUnit(env, mid);
      if pos != 0 {
        hi := mid;
      } else {
        lo := mid + 1;
      }
    }
    return Found(lo);
  }
}
