// do_lseek, the acceptance rule of the seek sanity test, and the expectation
// tables of test01 .. test06 and test18.  A table row is one do_lseek call:
// the whence, the offset passed to lseek and the expected result (-1 for
// ENXIO).  The filesystem under test is either one that reports holes
// precisely (the reference of SeekModel) or one with the generic default
// behaviour, which treats the whole file as data.

module LseekCheck {
  import opened SeekModel

  const ENXIO: nat := 6

  /** LLONG_MIN, the most negative off_t. */
  const LlongMin: int := -0x8000_0000_0000_0000

  /** What lseek returned: an offset, or -1 with an errno. */
  datatype Answer = Answer(pos: int, errno: nat)

  datatype Row = Row(whence: Whence, offset: int, exp: int)

  datatype Fs = Precise | DefaultOnly

  /** The second acceptable result: EOF for SEEK_HOLE, the offset itself for SEEK_DATA on a default-behaviour filesystem. */
  function Exp2(filsz: int, whence: Whence, offset: int, exp: int, defaultBehavior: bool): (r: int)
    ensures r == exp || r == filsz || r == offset
    ensures whence == SeekData && !defaultBehavior ==> r == exp
    ensures whence == SeekHole && exp == -1 ==> r == -1
  {
    if whence == SeekData && defaultBehavior && offset < filsz then offset
    else if whence == SeekHole && exp != -1 then filsz
    else exp
  }

  /** do_lseek: 0 when the answer is accepted, 1 when the subtest fails. */
  function DoLseek(filsz: int, whence: Whence, offset: int, exp: int, defaultBehavior: bool, a: Answer): (ret: nat)
    ensures ret <= 1
    ensures a.pos == exp && exp != -1 ==> ret == 0
    ensures a.pos != exp && a.pos != Exp2(filsz, whence, offset, exp, defaultBehavior) ==> ret == 1
    ensures a.pos == -1 && exp == -1 ==> (ret == 0 <==> a.errno == ENXIO)
  {
    if a.pos == -1 && exp == -1 then (if a.errno == ENXIO then 0 else 1)
    else if a.pos == exp || a.pos == Exp2(filsz, whence, offset, exp, defaultBehavior) then 0
    else 1
  }

  /** lseek on a filesystem with the generic behaviour: all of the file is data, EOF the only hole. */
  function DefaultSeek(size: nat, whence: Whence, offset: int): int
  {
    if offset < 0 || offset >= size then -1
    else match whence
      case SeekData => offset
      case SeekHole => size
  }

  function AnswerOf(fs: Fs, f: File, whence: Whence, offset: int): Answer
  {
    var pos := match fs
      case Precise => Seek(f, whence, offset)
      case DefaultOnly => DefaultSeek(f.size, whence, offset);
    Answer(pos, if pos == -1 then ENXIO else 0)
  }

  /**
   * Against a table written from the reference, do_lseek accepts the
   * reference's answers, and a default-behaviour filesystem's answers when
   * default_behavior is set.
   */
  lemma ReferenceTableAccepts(f: File, whence: Whence, offset: int, dflt: bool, fs: Fs)
    requires fs == Precise || dflt
    ensures DoLseek(f.size, whence, offset, Seek(f, whence, offset), dflt, AnswerOf(fs, f, whence, offset)) == 0
  {
    if fs == DefaultOnly && whence == SeekHole {
      SeekHoleCorrect(f, offset);
    }
  }

  /**
   * Without default_behavior, a default-behaviour answer to SEEK_DATA passes
   * exactly when the offset is negative, beyond EOF or on data: from inside
   * a hole the test rightly fails it.
   */
  lemma DefaultNeedsFlag(f: File, offset: int)
    ensures DoLseek(f.size, SeekData, offset, Seek(f, SeekData, offset), false, AnswerOf(DefaultOnly, f, SeekData, offset)) == 0
            <==> offset < 0 || offset >= f.size || DataAt(f, offset)
  {
    SeekDataCorrect(f, offset);
    if 0 <= offset < f.size && DataAt(f, offset) {
      SeekStaysPut(f, offset);
    }
  }

  /**
   * test_basic_support declares default behaviour when SEEK_HOLE from 0 on
   * two units of data followed by two units of hole returns the file size:
   * the reference answers 2A, the default filesystem 4A.
   */
  lemma BasicSupportDetects(a: nat)
    requires a >= 1
    ensures Seek(File(4 * a, [Data(2 * a)]), SeekHole, 0) == 2 * a
    ensures DefaultSeek(4 * a, SeekHole, 0) == 4 * a
  {
    assert [Data(2 * a)][1..] == [];
    assert HoleFrom([Data(2 * a)], 0) == 2 * a + HoleFrom([], 0);
  }

  // ---------------------------------------------------------------------
  // Running a table: the ret += do_lseek(...) sequence of a test.

  function Failures(f: File, rows: seq<Row>, dflt: bool, fs: Fs): nat
  {
    if rows == [] then 0
    else DoLseek(f.size, rows[0].whence, rows[0].offset, rows[0].exp, dflt, AnswerOf(fs, f, rows[0].whence, rows[0].offset)) +
         Failures(f, rows[1..], dflt, fs)
  }

  /** A table whose every row is the reference's answer passes on both kinds of filesystem. */
  lemma {:induction false} ReferenceTablePasses(f: File, rows: seq<Row>, dflt: bool, fs: Fs)
    requires fs == Precise || dflt
    requires forall r :: r in rows ==> Seek(f, r.whence, r.offset) == r.exp
    ensures Failures(f, rows, dflt, fs) == 0
    decreases |rows|
  {
    if rows != [] {
      assert rows[0] in rows;
      ReferenceTableAccepts(f, rows[0].whence, rows[0].offset, dflt, fs);
      assert forall r :: r in rows[1..] ==> r in rows;
      ReferenceTablePasses(f, rows[1..], dflt, fs);
    }
  }

  // ---------------------------------------------------------------------
  // Files whose data is at most two intervals.

  /** The data of f is exactly [a1, b1) and [a2, b2); the second may be empty, and is when it touches the first. */
  ghost predicate TwoIntervals(f: File, a1: nat, b1: nat, a2: nat, b2: nat)
  {
    a1 < b1 <= a2 <= b2 <= f.size && (b1 == a2 ==> a2 == b2) &&
    forall y: nat :: DataAt(f, y) <==> (a1 <= y < b1 || a2 <= y < b2)
  }

  /** Where lseek lands in a file whose data is [a1, b1) and [a2, b2), by case analysis on the offset. */
  function IntervalsSeek(size: nat, a1: nat, b1: nat, a2: nat, b2: nat, whence: Whence, off: int): int
  {
    if off < 0 || off >= size then -1
    else match whence
      case SeekData =>
        if off < a1 then a1
        else if off < b1 then off
        else if off < a2 && a2 < b2 then a2
        else if a2 <= off < b2 then off
        else -1
      case SeekHole =>
        if a1 <= off < b1 then b1
        else if a2 <= off < b2 then b2
        else off
  }

  /** The reference agrees with the case analysis on every such file. */
  lemma TwoIntervalsSeek(f: File, a1: nat, b1: nat, a2: nat, b2: nat, whence: Whence, off: int)
    requires TwoIntervals(f, a1, b1, a2, b2)
    ensures Seek(f, whence, off) == IntervalsSeek(f.size, a1, b1, a2, b2, whence, off)
  {
    if whence == SeekData {
      SeekDataCorrect(f, off);
      var r := SeekDataOf(f, off);
      if 0 <= off < f.size {
        if off < a1 {
          assert DataAt(f, a1);
        } else if off < b1 {
          assert DataAt(f, off);
        } else if off < a2 && a2 < b2 {
          assert DataAt(f, a2);
        } else if a2 <= off < b2 {
          assert DataAt(f, off);
        }
        if r != -1 {
          assert DataAt(f, r);
        }
      }
    } else {
      SeekHoleCorrect(f, off);
      if 0 <= off < f.size {
        if a1 <= off < b1 {
          assert b1 < f.size ==> !DataAt(f, b1);
        } else if a2 <= off < b2 {
          assert b2 < f.size ==> !DataAt(f, b2);
        } else {
          assert !DataAt(f, off);
        }
      }
    }
  }

  /** A table every row of which is the case analysis's answer holds for the file. */
  lemma TwoIntervalsTable(f: File, a1: nat, b1: nat, a2: nat, b2: nat, rows: seq<Row>)
    requires TwoIntervals(f, a1, b1, a2, b2)
    requires forall r :: r in rows ==> r.exp == IntervalsSeek(f.size, a1, b1, a2, b2, r.whence, r.offset)
    ensures TableHolds(f, rows)
  {
    forall r | r in rows
      ensures Seek(f, r.whence, r.offset) == r.exp
    {
      TwoIntervalsSeek(f, a1, b1, a2, b2, r.whence, r.offset);
    }
  }

  // ---------------------------------------------------------------------
  // The tables.  A is alloc_size.

  /** test01: an empty file. */
  function Test01Layout(): File { File(0, []) }

  function Test01Rows(): seq<Row>
  {
    [Row(SeekData, 0, -1), Row(SeekHole, 0, -1), Row(SeekHole, 1, -1)]
  }

  /** test02: eight bytes of data. */
  function Test02Layout(): File { File(8, [Data(8)]) }

  function Test02Rows(): seq<Row>
  {
    [Row(SeekHole, 0, 8), Row(SeekData, 0, 0), Row(SeekData, 1, 1), Row(SeekHole, 7, 8),
     Row(SeekData, 7, 7), Row(SeekHole, 8, -1), Row(SeekData, 8, -1), Row(SeekHole, 9, -1),
     Row(SeekData, 9, -1)]
  }

  /** test03: 2A + 100 bytes of data. */
  function Test03Layout(a: nat): File { File(2 * a + 100, [Data(2 * a + 100)]) }

  function Test03Rows(a: nat): seq<Row>
  {
    var b := 2 * a + 100;
    [Row(SeekHole, 0, b), Row(SeekHole, 1, b), Row(SeekData, 0, 0), Row(SeekData, 1, 1),
     Row(SeekHole, b - 1, b), Row(SeekData, b - 1, b - 1), Row(SeekHole, b, -1), Row(SeekData, b, -1),
     Row(SeekHole, b + 1, -1), Row(SeekData, b + 1, -1)]
  }

  /** test04: a hole of 2A, then eight bytes of data. */
  function Test04Layout(a: nat): File { File(2 * a + 8, [Hole(2 * a), Data(8)]) }

  function Test04Rows(a: nat): seq<Row>
  {
    var h, s := 2 * a, 2 * a + 8;
    [Row(SeekHole, 0, 0), Row(SeekHole, 1, 1), Row(SeekData, 0, h), Row(SeekData, 1, h),
     Row(SeekHole, h - 1, h - 1), Row(SeekData, h - 1, h), Row(SeekHole, h, s), Row(SeekData, h, h),
     Row(SeekHole, h + 1, s), Row(SeekData, h + 1, h + 1),
     Row(SeekHole, s - 1, s), Row(SeekData, s - 1, s - 1), Row(SeekHole, s, -1), Row(SeekData, s, -1),
     Row(SeekHole, s + 1, -1), Row(SeekData, s + 1, -1)]
  }

  /** test05: a unit of data, then three units of hole up to the size offset by ftruncate. */
  function Test05Layout(a: nat): File { File(4 * a, [Data(a)]) }

  function Test05Rows(a: nat): seq<Row>
  {
    var s := 4 * a;
    [Row(SeekHole, 0, a), Row(SeekHole, 1, a), Row(SeekData, 0, 0), Row(SeekData, 1, 1),
     Row(SeekHole, a - 1, a), Row(SeekData, a - 1, a - 1), Row(SeekHole, a, a), Row(SeekData, a, -1),
     Row(SeekHole, a + 1, a + 1), Row(SeekData, a + 1, -1),
     Row(SeekHole, s - 1, s - 1), Row(SeekData, s - 1, -1), Row(SeekHole, s, -1), Row(SeekData, s, -1),
     Row(SeekHole, s + 1, -1), Row(SeekData, s + 1, -1)]
  }

  /** test06: hole, data, hole, data, one unit each. */
  function Test06Layout(a: nat): File { File(4 * a, [Hole(a), Data(a), Hole(a), Data(a)]) }

  /** test06, offsets at the beginning. */
  function Test06Start(a: nat): seq<Row>
  {
    [Row(SeekHole, 0, 0), Row(SeekHole, 1, 1), Row(SeekData, 0, a), Row(SeekData, 1, a)]
  }

  /** test06, offsets around the first hole-data boundary. */
  function Test06First(a: nat): seq<Row>
  {
    [Row(SeekHole, a - 1, a - 1), Row(SeekData, a - 1, a), Row(SeekHole, a, 2 * a), Row(SeekData, a, a),
     Row(SeekHole, a + 1, 2 * a), Row(SeekData, a + 1, a + 1)]
  }

  /** test06, offsets around the data-hole boundary. */
  function Test06Second(a: nat): seq<Row>
  {
    [Row(SeekHole, 2 * a - 1, 2 * a), Row(SeekData, 2 * a - 1, 2 * a - 1), Row(SeekHole, 2 * a, 2 * a),
     Row(SeekData, 2 * a, 3 * a), Row(SeekHole, 2 * a + 1, 2 * a + 1), Row(SeekData, 2 * a + 1, 3 * a)]
  }

  /** test06, offsets around the second hole-data boundary. */
  function Test06Third(a: nat): seq<Row>
  {
    [Row(SeekHole, 3 * a - 1, 3 * a - 1), Row(SeekData, 3 * a - 1, 3 * a), Row(SeekHole, 3 * a, 4 * a),
     Row(SeekData, 3 * a, 3 * a), Row(SeekHole, 3 * a + 1, 4 * a), Row(SeekData, 3 * a + 1, 3 * a + 1)]
  }

  /** test06, offsets around the end of the file. */
  function Test06End(a: nat): seq<Row>
  {
    var s := 4 * a;
    [Row(SeekHole, s - 1, s), Row(SeekData, s - 1, s - 1), Row(SeekHole, s, -1), Row(SeekData, s, -1),
     Row(SeekHole, s + 1, -1), Row(SeekData, s + 1, -1)]
  }

  function Test06Rows(a: nat): seq<Row>
  {
    Test06Start(a) + Test06First(a) + Test06Second(a) + Test06Third(a) + Test06End(a)
  }

  /** test18: negative offsets on an empty file. */
  function Test18Rows(): seq<Row>
  {
    [Row(SeekHole, -1, -1), Row(SeekData, -1, -1), Row(SeekHole, LlongMin, -1), Row(SeekData, LlongMin, -1)]
  }

  /** Every row of a table is the reference's answer. */
  ghost predicate TableHolds(f: File, rows: seq<Row>)
  {
    forall r :: r in rows ==> Seek(f, r.whence, r.offset) == r.exp
  }

  /** An empty file has neither data nor holes: every offset is ENXIO. */
  lemma Test01Holds()
    ensures TableHolds(Test01Layout(), Test01Rows())
  {
  }

  /** Negative offsets, down to LLONG_MIN, are ENXIO for both whences. */
  lemma Test18Holds()
    ensures TableHolds(Test01Layout(), Test18Rows())
  {
  }

  lemma Test02Holds()
    ensures TableHolds(Test02Layout(), Test02Rows())
  {
    var f := Test02Layout();
    assert TwoIntervals(f, 0, 8, 8, 8);
    TwoIntervalsTable(f, 0, 8, 8, 8, Test02Rows());
  }

  lemma Test03Holds(a: nat)
    ensures TableHolds(Test03Layout(a), Test03Rows(a))
  {
    var f, b := Test03Layout(a), 2 * a + 100;
    assert TwoIntervals(f, 0, b, b, b);
    TwoIntervalsTable(f, 0, b, b, b, Test03Rows(a));
  }

  lemma Test04Holds(a: nat)
    requires a >= 1
    ensures TableHolds(Test04Layout(a), Test04Rows(a))
  {
    var f := Test04Layout(a);
    assert f.runs[1..] == [Data(8)];
    forall y: nat
      ensures DataAt(f, y) <==> 2 * a <= y < 2 * a + 8
    {
      assert f.runs[1..][1..] == [];
      if y >= 2 * a {
        assert DataIn(f.runs, y) == DataIn([Data(8)], y - 2 * a);
      }
    }
    assert TwoIntervals(f, 2 * a, 2 * a + 8, 2 * a + 8, 2 * a + 8);
    TwoIntervalsTable(f, 2 * a, 2 * a + 8, 2 * a + 8, 2 * a + 8, Test04Rows(a));
  }

  /** test05 needs A >= 2: with A = 1 the byte at offset 1 is a hole, not data followed by a hole at A. */
  lemma Test05Holds(a: nat)
    requires a >= 2
    ensures TableHolds(Test05Layout(a), Test05Rows(a))
  {
    var f := Test05Layout(a);
    forall y: nat
      ensures DataAt(f, y) <==> y < a
    {
      if y >= a {
        assert DataIn(f.runs, y) == DataIn(f.runs[1..], y - a);
        assert f.runs[1..] == [];
      }
    }
    assert TwoIntervals(f, 0, a, 4 * a, 4 * a);
    TwoIntervalsTable(f, 0, a, 4 * a, 4 * a, Test05Rows(a));
  }

  /** Where test06's file holds data: the second and fourth units. */
  lemma Test06Data(a: nat)
    ensures TwoIntervals(Test06Layout(a), a, 2 * a, 3 * a, 4 * a) || a == 0
  {
    var f := Test06Layout(a);
    var rs := f.runs;
    assert rs[1..] == [Data(a), Hole(a), Data(a)];
    assert rs[1..][1..] == [Hole(a), Data(a)];
    assert rs[1..][1..][1..] == [Data(a)];
    assert rs[1..][1..][1..][1..] == [];
    forall y: nat
      ensures DataAt(f, y) <==> (a <= y < 2 * a || 3 * a <= y < 4 * a)
    {
      if y >= a {
        assert DataIn(rs, y) == DataIn(rs[1..], y - a);
        if y >= 2 * a {
          assert DataIn(rs[1..], y - a) == DataIn(rs[1..][1..], y - 2 * a);
          if y >= 3 * a {
            assert DataIn(rs[1..][1..], y - 2 * a) == DataIn(rs[1..][1..][1..], y - 3 * a);
          }
        }
      }
    }
  }

  lemma Test06StartHolds(a: nat)
    requires a >= 2
    ensures TableHolds(Test06Layout(a), Test06Start(a))
  {
    Test06Data(a);
    TwoIntervalsTable(Test06Layout(a), a, 2 * a, 3 * a, 4 * a, Test06Start(a));
  }

  lemma Test06FirstHolds(a: nat)
    requires a >= 2
    ensures TableHolds(Test06Layout(a), Test06First(a))
  {
    Test06Data(a);
    TwoIntervalsTable(Test06Layout(a), a, 2 * a, 3 * a, 4 * a, Test06First(a));
  }

  lemma Test06SecondHolds(a: nat)
    requires a >= 2
    ensures TableHolds(Test06Layout(a), Test06Second(a))
  {
    Test06Data(a);
    TwoIntervalsTable(Test06Layout(a), a, 2 * a, 3 * a, 4 * a, Test06Second(a));
  }

  lemma Test06ThirdHolds(a: nat)
    requires a >= 2
    ensures TableHolds(Test06Layout(a), Test06Third(a))
  {
    Test06Data(a);
    TwoIntervalsTable(Test06Layout(a), a, 2 * a, 3 * a, 4 * a, Test06Third(a));
  }

  lemma Test06EndHolds(a: nat)
    requires a >= 2
    ensures TableHolds(Test06Layout(a), Test06End(a))
  {
    Test06Data(a);
    TwoIntervalsTable(Test06Layout(a), a, 2 * a, 3 * a, 4 * a, Test06End(a));
  }

  /** test06 needs A >= 2: with A = 1, offset 1 is data, so SEEK_HOLE from 1 is 2, not 1. */
  lemma Test06Holds(a: nat)
    requires a >= 2
    ensures TableHolds(Test06Layout(a), Test06Rows(a))
  {
    Test06StartHolds(a);
    Test06FirstHolds(a);
    Test06SecondHolds(a);
    Test06ThirdHolds(a);
    Test06EndHolds(a);
  }

  /**
   * Every one of these tests reports no failure on a filesystem that reports
   * holes precisely, and on a default-behaviour filesystem once
   * default_behavior is set.
   */
  lemma TablesPass(a: nat, dflt: bool, fs: Fs)
    requires a >= 2
    requires fs == Precise || dflt
    ensures Failures(Test01Layout(), Test01Rows(), dflt, fs) == 0
    ensures Failures(Test02Layout(), Test02Rows(), dflt, fs) == 0
    ensures Failures(Test03Layout(a), Test03Rows(a), dflt, fs) == 0
    ensures Failures(Test04Layout(a), Test04Rows(a), dflt, fs) == 0
    ensures Failures(Test05Layout(a), Test05Rows(a), dflt, fs) == 0
    ensures Failures(Test06Layout(a), Test06Rows(a), dflt, fs) == 0
    ensures Failures(Test01Layout(), Test18Rows(), dflt, fs) == 0
  {
    Test01Holds();
    Test18Holds();
    Test02Holds();
    Test03Holds(a);
    Test04Holds(a);
    Test05Holds(a);
    Test06Holds(a);
    ReferenceTablePasses(Test01Layout(), Test01Rows(), dflt, fs);
    ReferenceTablePasses(Test02Layout(), Test02Rows(), dflt, fs);
    ReferenceTablePasses(Test03Layout(a), Test03Rows(a), dflt, fs);
    ReferenceTablePasses(Test04Layout(a), Test04Rows(a), dflt, fs);
    ReferenceTablePasses(Test05Layout(a), Test05Rows(a), dflt, fs);
    ReferenceTablePasses(Test06Layout(a), Test06Rows(a), dflt, fs);
    ReferenceTablePasses(Test01Layout(), Test18Rows(), dflt, fs);
  }
}
