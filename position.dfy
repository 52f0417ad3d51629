/**
 * Tk text indices on a flat document. A stored index such as the ghost
 * anchor or the position a request was issued from is a "line.col" pair;
 * it is resolved against the document as it is when it is used, with Tk's
 * clamping. The INSERT mark itself is an offset into the flat text, and
 * "index+Nc" counts characters across newlines.
 */
module Position {
  import opened Strings

  /** A Tk index "line.col": lines count from 1, columns from 0. */
  datatype Pos = Pos(line: nat, col: nat)

  /** The normalised index of the point just after x: what index(INSERT) reports when the mark follows x. */
  function EndPos(x: string): (p: Pos)
    ensures p.line >= 1
  {
    if x == [] then Pos(1, 0)
    else
      var p := EndPos(x[1..]);
      if x[0] == '\n' then Pos(p.line + 1, p.col)
      else if p.line == 1 then Pos(1, p.col + 1)
      else p
  }

  /** index(INSERT) when the mark sits at offset off of t. */
  function PosOf(t: string, off: nat): Pos
    requires off <= |t|
  {
    EndPos(t[..off])
  }

  /**
   * The offset that "line.col" denotes in t. A column past the end of its
   * line stops at that line's end; a line past the last one stops at the
   * end of the text.
   */
  function Resolve(t: string, line: nat, col: nat): (r: nat)
    ensures r <= |t|
  {
    if t == [] then 0
    else if line <= 1 then
      (if col == 0 || t[0] == '\n' then 0 else 1 + Resolve(t[1..], 1, col - 1))
    else if t[0] == '\n' then 1 + Resolve(t[1..], line - 1, col)
    else 1 + Resolve(t[1..], line, col)
  }

  function OffsetOf(t: string, p: Pos): (r: nat)
    ensures r <= |t|
  {
    Resolve(t, p.line, p.col)
  }

  /** "off+Nc": n characters forward, stopping at the end of the text. */
  function Forward(t: string, off: nat, n: nat): (r: nat)
    requires off <= |t|
    ensures off <= r <= |t|
    ensures r == off + n || r == |t|
  {
    if off + n <= |t| then off + n else |t|
  }

  /** The index of the end of x still denotes that point once more text follows it. */
  lemma {:induction false} EndPosResolves(x: string, y: string)
    ensures OffsetOf(x + y, EndPos(x)) == |x|
  {
    if x == [] {
      assert x + y == y;
    } else {
      assert (x + y)[0] == x[0];
      assert (x + y)[1..] == x[1..] + y;
      EndPosResolves(x[1..], y);
    }
  }

  /** The start of the line a point is on does not depend on the text after the point. */
  lemma {:induction false} LineStartResolves(x: string, y: string)
    ensures Resolve(x + y, EndPos(x).line, 0) == Resolve(x, EndPos(x).line, 0)
  {
    if x == [] {
      assert x + y == y;
    } else {
      assert (x + y)[0] == x[0];
      assert (x + y)[1..] == x[1..] + y;
      LineStartResolves(x[1..], y);
    }
  }

  /** Reading the INSERT mark's index and resolving it again gives the mark back. */
  lemma PosRoundTrip(t: string, off: nat)
    requires off <= |t|
    ensures OffsetOf(t, PosOf(t, off)) == off
  {
    EndPosResolves(t[..off], t[off..]);
    assert t[..off] + t[off..] == t;
  }

  /** Two offsets have the same index exactly when they are equal, so comparing indices compares offsets. */
  lemma PosInjective(t: string, a: nat, b: nat)
    requires a <= |t| && b <= |t|
    ensures PosOf(t, a) == PosOf(t, b) <==> a == b
  {
    PosRoundTrip(t, a);
    PosRoundTrip(t, b);
  }

  /**
   * The text from "L.0" to "L.C" is the first C characters of line L, so
   * the piece of line L before an index ends exactly at that index.
   */
  lemma {:induction false} LineSlice(t: string, line: nat, col: nat)
    requires 1 <= line <= |Lines(t)|
    ensures Resolve(t, line, 0) <= Resolve(t, line, col)
    ensures Take(Lines(t)[line - 1], col) == t[Resolve(t, line, 0)..Resolve(t, line, col)]
    decreases |t|, 1
  {
    if t == [] {
    } else if t[0] == '\n' {
      if line > 1 {
        LineSliceAfterNewline(t, line, col);
      }
    } else if line == 1 {
      if col > 0 {
        LineSliceFirst(t, col);
      }
    } else {
      LineSliceLater(t, line, col);
    }
  }

  /** LineSlice when t starts with a newline and the line is a later one. */
  lemma {:induction false} LineSliceAfterNewline(t: string, line: nat, col: nat)
    requires t != [] && t[0] == '\n' && 1 < line <= |Lines(t)|
    ensures Resolve(t, line, 0) <= Resolve(t, line, col)
    ensures Take(Lines(t)[line - 1], col) == t[Resolve(t, line, 0)..Resolve(t, line, col)]
    decreases |t|, 0
  {
    assert Lines(t) == [""] + Lines(t[1..]);
    LineSlice(t[1..], line - 1, col);
    SliceOfSuffix(t, 1, Resolve(t[1..], line - 1, 0), Resolve(t[1..], line - 1, col));
  }

  /** LineSlice on the first line when t starts with another character. */
  lemma {:induction false} LineSliceFirst(t: string, col: nat)
    requires t != [] && t[0] != '\n' && col > 0
    ensures Take(Lines(t)[0], col) == t[..Resolve(t, 1, col)]
    decreases |t|, 0
  {
    var rest := Lines(t[1..]);
    LineSlice(t[1..], 1, col - 1);
    assert Lines(t)[0] == [t[0]] + rest[0];
    TakeCons(t[0], rest[0], col);
    SliceCons(t, Resolve(t[1..], 1, col - 1));
  }

  /** LineSlice on a later line when t starts with another character. */
  lemma {:induction false} LineSliceLater(t: string, line: nat, col: nat)
    requires t != [] && t[0] != '\n' && 1 < line <= |Lines(t)|
    ensures Resolve(t, line, 0) <= Resolve(t, line, col)
    ensures Take(Lines(t)[line - 1], col) == t[Resolve(t, line, 0)..Resolve(t, line, col)]
    decreases |t|, 0
  {
    LineSlice(t[1..], line, col);
    assert Lines(t)[line - 1] == Lines(t[1..])[line - 1];
    SliceOfSuffix(t, 1, Resolve(t[1..], line, 0), Resolve(t[1..], line, col));
  }

  lemma TakeCons(c: char, x: string, n: nat)
    requires n > 0
    ensures Take([c] + x, n) == [c] + Take(x, n - 1)
  {
  }

  lemma SliceCons(t: string, r: nat)
    requires r < |t|
    ensures t[..1 + r] == [t[0]] + t[1..][..r]
  {
  }

  /** The index of a point lies inside the text: its line exists and its column is within that line. */
  lemma {:induction false} EndPosInLines(x: string, y: string)
    ensures EndPos(x).line <= |Lines(x + y)|
    ensures EndPos(x).col <= |Lines(x + y)[EndPos(x).line - 1]|
  {
    if x == [] {
      assert x + y == y;
    } else {
      assert (x + y)[0] == x[0];
      assert (x + y)[1..] == x[1..] + y;
      EndPosInLines(x[1..], y);
    }
  }

  lemma CursorInLines(t: string, off: nat)
    requires off <= |t|
    ensures 1 <= PosOf(t, off).line <= |Lines(t)|
    ensures PosOf(t, off).col <= |Lines(t)[PosOf(t, off).line - 1]|
  {
    EndPosInLines(t[..off], t[off..]);
    assert t[..off] + t[off..] == t;
  }
}
