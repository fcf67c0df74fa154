// The driver of the seek sanity test: main's option checks, the support
// check that decides default_behavior, and the loop over the test table.
// Options arrive already split by getopt, with the arguments of -s and -e
// already converted by strtol; the outcome of each test is an input.

module SeekMain {
  import opened SeekModel
  import opened LseekCheck

  /** The number of entries of seek_tests. */
  const NumTests: nat := 21

  /** Tests 1 to 12 are the default range (the ones generic/285 runs). */
  const DefaultStart: int := 1
  const DefaultEnd: int := 12

  /** One option as getopt("tfs:e:") returns it. */
  datatype Opt = CheckOnly | NoDefault | StartAt(n: int) | EndAt(n: int) | Unknown

  datatype Config = Config(checkSupport: bool, allowDefault: bool, start: int, end: int)

  /** The result of option processing: usage() and exit, or a configuration to run. */
  datatype Parsed = Usage | Run(cfg: Config)

  /** An option main accepts: -t, -f, and -s or -e with a test number in 1..21. */
  predicate Acceptable(o: Opt)
  {
    match o
    case CheckOnly => true
    case NoDefault => true
    case StartAt(n) => 1 <= n <= NumTests
    case EndAt(n) => 1 <= n <= NumTests
    case Unknown => false
  }

  /** The last -s value, or the default when there is none. */
  function LastStart(opts: seq<Opt>): int
  {
    if opts == [] then DefaultStart
    else if opts[|opts| - 1].StartAt? then opts[|opts| - 1].n
    else LastStart(opts[..|opts| - 1])
  }

  /** The last -e value, or the default when there is none. */
  function LastEnd(opts: seq<Opt>): int
  {
    if opts == [] then DefaultEnd
    else if opts[|opts| - 1].EndAt? then opts[|opts| - 1].n
    else LastEnd(opts[..|opts| - 1])
  }

  /**
   * What main makes of its command line: usage on any bad option, on
   * anything but exactly one operand left (the base file path), or on a
   * start after the end; otherwise the last -s and -e win.
   */
  function Verdict(opts: seq<Opt>, operands: nat): (r: Parsed)
    ensures r.Run? <==> operands == 1 && (forall i :: 0 <= i < |opts| ==> Acceptable(opts[i])) &&
                        LastStart(opts) <= LastEnd(opts)
    ensures r.Run? ==> (r.cfg.checkSupport <==> CheckOnly in opts) && (r.cfg.allowDefault <==> NoDefault !in opts)
  {
    if (exists i :: 0 <= i < |opts| && !Acceptable(opts[i])) || operands != 1 || LastStart(opts) > LastEnd(opts)
    then Usage
    else Run(Config(CheckOnly in opts, NoDefault !in opts, LastStart(opts), LastEnd(opts)))
  }

  /** main's getopt loop and the checks after it. */
  method ParseArgs(opts: seq<Opt>, operands: nat) returns (r: Parsed)
    ensures r == Verdict(opts, operands)
  {
    var checkSupport, allowDefault := false, true;
    var start, end := DefaultStart, DefaultEnd;
    var i := 0;
    while i < |opts|
      invariant 0 <= i <= |opts|
      invariant forall j :: 0 <= j < i ==> Acceptable(opts[j])
      invariant checkSupport == (CheckOnly in opts[..i])
      invariant allowDefault == (NoDefault !in opts[..i])
      invariant start == LastStart(opts[..i]) && end == LastEnd(opts[..i])
    {
      assert opts[..i + 1][..i] == opts[..i];
      match opts[i] {
        case CheckOnly =>
          checkSupport := true;
        case NoDefault =>
          allowDefault := false;
        case StartAt(n) =>
          start := n;
          if n <= 0 || n > NumTests {
            return Usage;
          }
        case EndAt(n) =>
          end := n;
          if n <= 0 || n > NumTests {
            return Usage;
          }
        case Unknown =>
          return Usage;
      }
      i := i + 1;
    }
    assert opts[..i] == opts;
    if operands != 1 {
      return Usage;
    }
    if start > end {
      return Usage;
    }
    return Run(Config(checkSupport, allowDefault, start, end));
  }

  /** Whatever main goes on to run lies inside the table, in order. */
  lemma VerdictInRange(opts: seq<Opt>, operands: nat)
    requires Verdict(opts, operands).Run?
    ensures 1 <= Verdict(opts, operands).cfg.start <= Verdict(opts, operands).cfg.end <= NumTests
  {
    LastStartAccepted(opts);
    LastEndAccepted(opts);
  }

  lemma {:induction false} LastStartAccepted(opts: seq<Opt>)
    requires forall i :: 0 <= i < |opts| ==> Acceptable(opts[i])
    ensures 1 <= LastStart(opts) <= NumTests
  {
    if opts != [] && !opts[|opts| - 1].StartAt? {
      LastStartAccepted(opts[..|opts| - 1]);
    }
  }

  lemma {:induction false} LastEndAccepted(opts: seq<Opt>)
    requires forall i :: 0 <= i < |opts| ==> Acceptable(opts[i])
    ensures 1 <= LastEnd(opts) <= NumTests
  {
    if opts != [] && !opts[|opts| - 1].EndAt? {
      LastEndAccepted(opts[..|opts| - 1]);
    }
  }

  /** With only the base path, main runs tests 1 to 12 and allows the default behaviour. */
  lemma DefaultRun()
    ensures Verdict([], 1) == Run(Config(false, true, 1, 12))
  {
  }

  /** -s 13 alone is refused: the default end 12 comes before it, so a later range needs -e as well. */
  lemma StartPastDefaultEnd()
    ensures Verdict([StartAt(13)], 1) == Usage
    ensures Verdict([StartAt(13), EndAt(21)], 1) == Run(Config(false, true, 13, 21))
  {
    assert [StartAt(13), EndAt(21)][..1] == [StartAt(13)];
  }

  /** Test numbers outside 1..21, a missing path and a reversed range all end in usage. */
  lemma UsageCases()
    ensures Verdict([StartAt(0)], 1) == Usage
    ensures Verdict([EndAt(22)], 1) == Usage
    ensures Verdict([], 0) == Usage && Verdict([], 2) == Usage
    ensures Verdict([StartAt(5), EndAt(4)], 1) == Usage
  {
    assert [StartAt(5), EndAt(4)][..1] == [StartAt(5)];
  }

  // ---------------------------------------------------------------------
  // test_basic_support

  datatype Support = NoSeekSupport | DefaultRefused | Supported(defaultBehavior: bool)

  /**
   * The verdict of test_basic_support from lseek(fd, 0, SEEK_DATA) and
   * lseek(fd, 0, SEEK_HOLE) on a file of two units of data then two of hole
   * (filsz bytes): SEEK_HOLE landing on EOF means the default behaviour,
   * which -f refuses.
   */
  function SupportCheck(allowDefault: bool, dataPos: int, holePos: int, filsz: int): (s: Support)
    ensures s == NoSeekSupport <==> dataPos == -1 || holePos == -1
    ensures s == DefaultRefused <==> dataPos != -1 && holePos == filsz != -1 && !allowDefault
    ensures s.Supported? ==> s.defaultBehavior == (holePos == filsz)
  {
    if dataPos == -1 || holePos == -1 then NoSeekSupport
    else if holePos == filsz && !allowDefault then DefaultRefused
    else Supported(holePos == filsz)
  }

  /** A filesystem that reports holes precisely passes the check, without default behaviour. */
  lemma PreciseSupported(a: nat, allowDefault: bool)
    requires a >= 1
    ensures var f := File(4 * a, [Data(2 * a)]);
            SupportCheck(allowDefault, Seek(f, SeekData, 0), Seek(f, SeekHole, 0), 4 * a) == Supported(false)
  {
    var f := File(4 * a, [Data(2 * a)]);
    BasicSupportDetects(a);
    SeekStaysPut(f, 0);
    assert DataAt(f, 0);
  }

  /** A default-behaviour filesystem is detected, and refused under -f. */
  lemma DefaultDetected(a: nat, allowDefault: bool)
    requires a >= 1
    ensures SupportCheck(allowDefault, DefaultSeek(4 * a, SeekData, 0), DefaultSeek(4 * a, SeekHole, 0), 4 * a)
            == if allowDefault then Supported(true) else DefaultRefused
  {
    BasicSupportDetects(a);
  }

  // ---------------------------------------------------------------------
  // The loop over seek_tests

  /** The numbers among the first `count` table entries that lie in [start, end], in table order. */
  function SelectedUpTo(start: int, end: int, count: nat): seq<int>
  {
    if count == 0 then []
    else SelectedUpTo(start, end, count - 1) + (if start <= count <= end then [count] else [])
  }

  /** The test numbers in [start, end] that the table holds, in table order. */
  function Selected(start: int, end: int): seq<int>
  {
    SelectedUpTo(start, end, NumTests)
  }

  /** Selection keeps exactly the table's numbers in [start, end], in increasing order. */
  lemma {:induction false} SelectedMembers(start: int, end: int, count: nat)
    ensures forall n :: n in SelectedUpTo(start, end, count) <==> 1 <= n <= count && start <= n <= end
    ensures forall j, k :: 0 <= j < k < |SelectedUpTo(start, end, count)| ==>
              SelectedUpTo(start, end, count)[j] < SelectedUpTo(start, end, count)[k]
  {
    if count > 0 {
      var prev, s := SelectedUpTo(start, end, count - 1), SelectedUpTo(start, end, count);
      SelectedMembers(start, end, count - 1);
      forall j, k | 0 <= j < k < |s|
        ensures s[j] < s[k]
      {
        if k >= |prev| {
          assert s[k] == count && s[j] == prev[j] && prev[j] in prev;
        }
      }
    }
  }

  /** Selecting among fewer entries gives a prefix: the loop meets the selected tests in order. */
  lemma {:induction false} SelectedPrefix(start: int, end: int, count: nat, more: nat)
    requires count <= more
    ensures SelectedUpTo(start, end, count) <= SelectedUpTo(start, end, more)
    decreases more
  {
    if count < more {
      SelectedPrefix(start, end, count, more - 1);
    }
  }

  /** Test number n is in the table and returned 0. */
  predicate Passed(results: seq<int>, n: int)
  {
    1 <= n <= |results| && results[n - 1] == 0
  }

  /**
   * main's loop: test number i + 1 returns results[i]; the tests in
   * [start, end] run in order and the first one that fails ends the loop
   * with its return value.
   */
  method RunSelected(results: seq<int>, start: int, end: int) returns (ret: int, ran: seq<int>)
    requires |results| == NumTests
    ensures ran <= Selected(start, end)
    ensures forall j :: 0 <= j < |ran| - 1 ==> Passed(results, ran[j])
    ensures ret == 0 <==> ran == Selected(start, end) && forall n :: n in ran ==> Passed(results, n)
    ensures ret != 0 ==> ran != [] && 1 <= ran[|ran| - 1] <= NumTests && ret == results[ran[|ran| - 1] - 1]
  {
    ret, ran := 0, [];
    var i := 0;
    while i < NumTests
      invariant 0 <= i <= NumTests
      invariant ret == 0
      invariant ran == SelectedUpTo(start, end, i)
      invariant forall n :: n in ran ==> Passed(results, n)
    {
      var num := i + 1;
      if start <= num <= end {
        ret := results[i];
        assert forall j :: 0 <= j < |ran| ==> ran[j] in ran;
        ran := ran + [num];
        if ret != 0 {
          SelectedPrefix(start, end, num, NumTests);
          assert !Passed(results, ran[|ran| - 1]) && ran[|ran| - 1] in ran;
          return;
        }
      }
      i := i + 1;
    }
    assert forall j :: 0 <= j < |ran| ==> ran[j] in ran;
  }
}
