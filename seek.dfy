// The SEEK_DATA / SEEK_HOLE behaviour that the seek sanity test expects of a
// filesystem that reports holes precisely.  A file is its size and the runs
// of data and holes it starts with; everything after the last run, up to the
// size, is a hole.  Offsets are the lseek(2) offset argument and may be
// negative; a result of -1 stands for the call failing with ENXIO.

module SeekModel {
  datatype Run = Data(len: nat) | Hole(len: nat)

  datatype File = File(size: nat, runs: seq<Run>)

  datatype Whence = SeekData | SeekHole

  /** Byte x lies in a data run. */
  predicate DataIn(runs: seq<Run>, x: nat)
  {
    if runs == [] then false
    else if x < runs[0].len then runs[0].Data?
    else DataIn(runs[1..], x - runs[0].len)
  }

  /** Byte x of the file holds data: it is inside the file and inside a data run. */
  predicate DataAt(f: File, x: nat)
  {
    x < f.size && DataIn(f.runs, x)
  }

  /** The first byte at or after x that lies in a data run, or -1 if there is none. */
  function NextData(runs: seq<Run>, x: nat): (r: int)
    ensures r == -1 || r >= x
  {
    if runs == [] then -1
    else
      var l := runs[0].len;
      if x < l && runs[0].Data? then x
      else
        var n := NextData(runs[1..], if x < l then 0 else x - l);
        if n == -1 then -1 else l + n
  }

  /** The first byte at or after x that does not lie in a data run. */
  function HoleFrom(runs: seq<Run>, x: nat): (r: nat)
    ensures r >= x
  {
    if runs == [] then x
    else
      var l := runs[0].len;
      if x < l && runs[0].Hole? then x
      else l + HoleFrom(runs[1..], if x < l then 0 else x - l)
  }

  /** lseek(fd, off, SEEK_DATA) */
  function SeekDataOf(f: File, off: int): (r: int)
    ensures r == -1 || 0 <= off <= r < f.size
    ensures off < 0 || off >= f.size ==> r == -1
  {
    if off < 0 || off >= f.size then -1
    else
      var n := NextData(f.runs, off);
      if n == -1 || n >= f.size then -1 else n
  }

  /** lseek(fd, off, SEEK_HOLE): the end of the file counts as a hole. */
  function SeekHoleOf(f: File, off: int): (r: int)
    ensures r == -1 <==> off < 0 || off >= f.size
    ensures r != -1 ==> off <= r <= f.size
  {
    if off < 0 || off >= f.size then -1
    else
      var h := HoleFrom(f.runs, off);
      if h < f.size then h else f.size
  }

  function Seek(f: File, whence: Whence, off: int): int
  {
    match whence
    case SeekData => SeekDataOf(f, off)
    case SeekHole => SeekHoleOf(f, off)
  }

  /** NextData finds the first data byte at or after x, and -1 means there is none. */
  lemma {:induction false} NextDataCorrect(runs: seq<Run>, x: nat)
    ensures NextData(runs, x) == -1 ==> forall y: nat :: x <= y ==> !DataIn(runs, y)
    ensures NextData(runs, x) != -1 ==>
              x <= NextData(runs, x) && DataIn(runs, NextData(runs, x)) &&
              forall y: nat :: x <= y < NextData(runs, x) ==> !DataIn(runs, y)
    decreases |runs|
  {
    if runs != [] {
      var l := runs[0].len;
      if !(x < l && runs[0].Data?) {
        var x' := if x < l then 0 else x - l;
        NextDataCorrect(runs[1..], x');
        forall y: nat | x <= y
          ensures DataIn(runs, y) <==> y >= l && DataIn(runs[1..], y - l)
        {
        }
      }
    }
  }

  /** HoleFrom finds the first byte at or after x outside every data run. */
  lemma {:induction false} HoleFromCorrect(runs: seq<Run>, x: nat)
    ensures x <= HoleFrom(runs, x) && !DataIn(runs, HoleFrom(runs, x))
    ensures forall y: nat :: x <= y < HoleFrom(runs, x) ==> DataIn(runs, y)
    decreases |runs|
  {
    if runs != [] {
      var l := runs[0].len;
      if !(x < l && runs[0].Hole?) {
        var x' := if x < l then 0 else x - l;
        HoleFromCorrect(runs[1..], x');
        forall y: nat | x <= y
          ensures DataIn(runs, y) <==> (y < l && runs[0].Data?) || (y >= l && DataIn(runs[1..], y - l))
        {
        }
      }
    }
  }

  /**
   * SEEK_DATA returns the first data byte of the file at or after off, and
   * fails exactly when off is negative or there is no data from off to EOF
   * (in particular at or beyond EOF).
   */
  lemma SeekDataCorrect(f: File, off: int)
    ensures SeekDataOf(f, off) == -1 <==>
              off < 0 || forall y: nat :: off <= y ==> !DataAt(f, y)
    ensures SeekDataOf(f, off) != -1 ==>
              off <= SeekDataOf(f, off) && DataAt(f, SeekDataOf(f, off)) &&
              forall y: nat :: off <= y < SeekDataOf(f, off) ==> !DataAt(f, y)
  {
    if 0 <= off < f.size {
      NextDataCorrect(f.runs, off);
      var n := NextData(f.runs, off);
      if n != -1 && n >= f.size {
        forall y: nat | off <= y
          ensures !DataAt(f, y)
        {
          if y < f.size {
            assert y < n;
          }
        }
      } else if n != -1 {
        assert DataAt(f, n);
      }
    } else if 0 <= off {
      assert forall y: nat :: off <= y ==> !DataAt(f, y);
    }
  }

  /**
   * SEEK_HOLE returns the first byte at or after off that is in a hole,
   * counting EOF as a hole; it fails exactly when off is negative or at or
   * beyond EOF.
   */
  lemma SeekHoleCorrect(f: File, off: int)
    ensures SeekHoleOf(f, off) == -1 <==> off < 0 || off >= f.size
    ensures SeekHoleOf(f, off) != -1 ==>
              off <= SeekHoleOf(f, off) <= f.size &&
              (SeekHoleOf(f, off) < f.size ==> !DataAt(f, SeekHoleOf(f, off))) &&
              forall y: nat :: off <= y < SeekHoleOf(f, off) ==> DataAt(f, y)
  {
    if 0 <= off < f.size {
      HoleFromCorrect(f.runs, off);
    }
  }

  /** From inside data, SEEK_DATA stays put; from inside a hole, SEEK_HOLE stays put. */
  lemma SeekStaysPut(f: File, off: nat)
    ensures DataAt(f, off) ==> SeekDataOf(f, off) == off
    ensures off < f.size && !DataAt(f, off) ==> SeekHoleOf(f, off) == off
  {
    SeekDataCorrect(f, off);
    SeekHoleCorrect(f, off);
  }
}
