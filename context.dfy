/**
 * The context windower: the text sent along with a completion request.
 * The current line is cut at the ghost anchor when the anchor is on the
 * cursor's line and at the cursor otherwise; around it go the non-blank
 * lines among the ten before and the five after.
 */
module Context {
  import opened Wrappers
  import opened Strings
  import opened Position
  import opened Widget

  const LinesBefore := 10
  const LinesAfter := 5

  /** (context_before, current_line, context_after). */
  datatype Window = Window(before: string, line: string, after: string)

  function Max(a: int, b: int): int { if a >= b then a else b }
  function Min(a: int, b: int): int { if a <= b then a else b }

  /** get("n.0", "n.end"): line n (counted from 1) of a document split into lines, "" outside it. */
  function LineAt(ls: seq<string>, n: int): string
  {
    if 1 <= n <= |ls| then ls[n - 1] else ""
  }

  /** The lines lo .. hi-1 whose strip() is non-empty, in document order. */
  function NonBlankLines(ls: seq<string>, lo: int, hi: int): (r: seq<string>)
    ensures |r| <= if lo < hi then hi - lo else 0
    ensures forall k :: 0 <= k < |r| ==> !IsBlank(r[k])
    decreases hi - lo
  {
    if lo >= hi then []
    else
      var x := LineAt(ls, hi - 1);
      NonBlankLines(ls, lo, hi - 1) + (if IsBlank(x) then [] else [x])
  }

  /** The current line: up to the ghost anchor when it is on the cursor's line, else up to the cursor. */
  function CurrentLine(ls: seq<string>, cur: Pos, anchor: Option<Pos>): string
  {
    var col := if anchor.Some? && anchor.value.line == cur.line then anchor.value.col else cur.col;
    Take(LineAt(ls, cur.line), col)
  }

  /** The non-blank lines among the ten before line l. */
  function ScanBefore(ls: seq<string>, l: int): seq<string>
  {
    NonBlankLines(ls, Max(1, l - LinesBefore), l)
  }

  /** The non-blank lines among the five after line l, within the document. */
  function ScanAfter(ls: seq<string>, l: int): seq<string>
  {
    NonBlankLines(ls, l + 1, Min(|ls|, l + LinesAfter) + 1)
  }

  /** The window the editor builds for a cursor at cur: the last ten and the first five of the scans. */
  function Extract(ls: seq<string>, cur: Pos, anchor: Option<Pos>): Window
  {
    Window(Join(Last(ScanBefore(ls, cur.line), LinesBefore), "\n"), CurrentLine(ls, cur, anchor),
           Join(First(ScanAfter(ls, cur.line), LinesAfter), "\n"))
  }

  // ------------------------------------------------------------ properties

  /** Every kept line is one of the lines lo .. hi-1. */
  lemma {:induction false} NonBlankLinesSound(ls: seq<string>, lo: int, hi: int, k: nat)
    requires k < |NonBlankLines(ls, lo, hi)|
    ensures exists n :: lo <= n < hi && NonBlankLines(ls, lo, hi)[k] == LineAt(ls, n)
    decreases hi - lo
  {
    var prev := NonBlankLines(ls, lo, hi - 1);
    if k < |prev| {
      NonBlankLinesSound(ls, lo, hi - 1, k);
    } else {
      assert NonBlankLines(ls, lo, hi)[k] == LineAt(ls, hi - 1);
    }
  }

  /** No non-blank line in the range is dropped. */
  lemma {:induction false} NonBlankLinesComplete(ls: seq<string>, lo: int, hi: int, n: int)
    requires lo <= n < hi && !IsBlank(LineAt(ls, n))
    ensures LineAt(ls, n) in NonBlankLines(ls, lo, hi)
    decreases hi - lo
  {
    if n < hi - 1 {
      NonBlankLinesComplete(ls, lo, hi - 1, n);
    }
  }

  /** Scanning lo .. hi-1 is scanning lo .. m-1 and then m .. hi-1: the lines stay in document order. */
  lemma {:induction false} NonBlankLinesSplit(ls: seq<string>, lo: int, m: int, hi: int)
    requires lo <= m <= hi
    ensures NonBlankLines(ls, lo, hi) == NonBlankLines(ls, lo, m) + NonBlankLines(ls, m, hi)
    decreases hi - m
  {
    if m < hi {
      NonBlankLinesSplit(ls, lo, m, hi - 1);
    }
  }

  /**
   * The scan before covers at most ten lines and the scan after at most
   * five, so the "last 10" and "first 5" cuts never drop anything.
   */
  lemma WindowCutsKeepEverything(ls: seq<string>, cur: Pos, anchor: Option<Pos>)
    ensures Extract(ls, cur, anchor)
         == Window(Join(ScanBefore(ls, cur.line), "\n"), CurrentLine(ls, cur, anchor), Join(ScanAfter(ls, cur.line), "\n"))
  {
    BeforeKept(ls, cur.line);
    AfterKept(ls, cur.line);
  }

  /** The scan before line l keeps at most ten lines, so the "last 10" cut keeps them all. */
  lemma BeforeKept(ls: seq<string>, l: int)
    ensures |ScanBefore(ls, l)| <= LinesBefore && Last(ScanBefore(ls, l), LinesBefore) == ScanBefore(ls, l)
  {
    var lo := Max(1, l - LinesBefore);
    assert |NonBlankLines(ls, lo, l)| <= if lo < l then l - lo else 0;
  }

  /** The scan after line l keeps at most five lines, so the "first 5" cut keeps them all. */
  lemma AfterKept(ls: seq<string>, l: int)
    ensures |ScanAfter(ls, l)| <= LinesAfter && First(ScanAfter(ls, l), LinesAfter) == ScanAfter(ls, l)
  {
    var hi := Min(|ls|, l + LinesAfter) + 1;
    assert |NonBlankLines(ls, l + 1, hi)| <= if l + 1 < hi then hi - (l + 1) else 0;
  }

  /** get("n.0", "n.end") is line n. */
  lemma LineEndSlice(t: string, n: nat)
    requires 1 <= n <= |Lines(t)|
    ensures Resolve(t, n, 0) <= Resolve(t, n, |t|)
    ensures LineAt(Lines(t), n) == t[Resolve(t, n, 0)..Resolve(t, n, |t|)]
  {
    LineSlice(t, n, |t|);
    var i := LineOccurs(t, n - 1);
  }

  /**
   * In the document, the current line is the text from the start of the
   * cursor's line up to the ghost anchor when the anchor is on that line,
   * and up to the cursor otherwise: ghost text after the anchor on that
   * line is never part of it.
   */
  lemma CurrentLineIsSlice(b: Buffer, anchor: Option<Pos>)
    requires Valid(b)
    ensures CurrentLineStart(b) <= CurrentLineStop(b, anchor)
    ensures Extract(Lines(b.text), InsertPos(b), anchor).line
         == b.text[CurrentLineStart(b)..CurrentLineStop(b, anchor)]
  {
    CursorInLines(b.text, b.cursor);
    PosRoundTrip(b.text, b.cursor);
    CutLine(b.text, InsertPos(b), anchor);
  }

  /** The current line for a point cur of t is the text from "L.0" to the column it is cut at. */
  lemma CutLine(t: string, cur: Pos, anchor: Option<Pos>)
    requires 1 <= cur.line <= |Lines(t)|
    ensures var col := if anchor.Some? && anchor.value.line == cur.line then anchor.value.col else cur.col;
            Resolve(t, cur.line, 0) <= Resolve(t, cur.line, col) &&
            CurrentLine(Lines(t), cur, anchor) == t[Resolve(t, cur.line, 0)..Resolve(t, cur.line, col)]
  {
    var col := if anchor.Some? && anchor.value.line == cur.line then anchor.value.col else cur.col;
    LineSlice(t, cur.line, col);
  }

  /** "L.0" for the cursor's line L. */
  function CurrentLineStart(b: Buffer): nat
    requires Valid(b)
  {
    Resolve(b.text, InsertPos(b).line, 0)
  }

  /** Where the current line is cut: the ghost anchor when it is on the cursor's line, else the cursor. */
  function CurrentLineStop(b: Buffer, anchor: Option<Pos>): nat
    requires Valid(b)
  {
    var cur := InsertPos(b);
    if anchor.Some? && anchor.value.line == cur.line then Resolve(b.text, cur.line, anchor.value.col)
    else b.cursor
  }

  /** One of the editor's scanning loops: lines lo .. hi-1 whose strip() is non-empty. */
  method CollectNonBlankLines(ls: seq<string>, lo: int, hi: int) returns (kept: seq<string>)
    ensures kept == NonBlankLines(ls, lo, hi)
  {
    kept := [];
    var n := lo;
    while n < hi
      invariant n == lo || lo < n <= hi
      invariant kept == NonBlankLines(ls, lo, n)
    {
      var content := LineAt(ls, n);
      var stripped := Strip(content);
      if stripped != [] {
        kept := kept + [content];
      }
      n := n + 1;
    }
  }

  /** The context before and after line l: the two scans and the "last 10" and "first 5" cuts. */
  method SurroundingLines(ls: seq<string>, l: int) returns (before: string, after: string)
    ensures before == Join(ScanBefore(ls, l), "\n")
    ensures after == Join(ScanAfter(ls, l), "\n")
  {
    var startLine := Max(1, l - LinesBefore);
    var linesBefore := CollectNonBlankLines(ls, startLine, l);
    BeforeKept(ls, l);
    before := Join(Last(linesBefore, LinesBefore), "\n");

    var endLine := Min(|ls|, l + LinesAfter);
    var linesAfter := CollectNonBlankLines(ls, l + 1, endLine + 1);
    AfterKept(ls, l);
    after := Join(First(linesAfter, LinesAfter), "\n");
  }

  /** The current line, read from the widget between "L.0" and the anchor or the cursor. */
  method ReadCurrentLine(b: Buffer, anchor: Option<Pos>) returns (line: string)
    requires Valid(b)
    ensures line == CurrentLine(Lines(b.text), InsertPos(b), anchor)
  {
    var t := b.text;
    var cur := InsertPos(b);
    var l := cur.line;
    CurrentLineIsSlice(b, anchor);
    var lineStart := Resolve(t, l, 0);
    if anchor.Some? && anchor.value.line == l {
      line := Get(b, lineStart, Resolve(t, l, anchor.value.col));
    } else {
      line := Get(b, lineStart, b.cursor);
    }
  }

  /** get_context_around_cursor: the current line, then the two scans around it. */
  method GetContextAroundCursor(b: Buffer, anchor: Option<Pos>) returns (before: string, line: string, after: string)
    requires Valid(b)
    ensures Window(before, line, after) == Extract(Lines(b.text), InsertPos(b), anchor)
  {
    line := ReadCurrentLine(b, anchor);
    before, after := AroundLine(Lines(b.text), InsertPos(b), anchor, line);
  }

  /** The context around the cursor's line, given the current line already read. */
  method AroundLine(ls: seq<string>, cur: Pos, anchor: Option<Pos>, line: string) returns (before: string, after: string)
    requires line == CurrentLine(ls, cur, anchor)
    ensures Window(before, line, after) == Extract(ls, cur, anchor)
  {
    before, after := SurroundingLines(ls, cur.line);
    WindowCutsKeepEverything(ls, cur, anchor);
  }
}
