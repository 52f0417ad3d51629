/**
 * The request log shown in the editor's chat pane: a prompt is displayed
 * only up to and including its first line that mentions "no explanations"
 * (ignoring case), so the fixed instructions after that line are hidden.
 */
module RequestLog {
  import opened Strings

  const Marker := "no explanations"

  /** The line that ends the displayed request. */
  predicate IsStopLine(line: string)
  {
    Contains(Lower(line), Marker)
  }

  /** No line of s is a stop line. */
  predicate NoStopLine(s: string)
  {
    forall k :: 0 <= k < |Lines(s)| ==> !IsStopLine(Lines(s)[k])
  }

  /**
   * The loop over the lines: every line is kept up to and including the
   * first stop line; all of them when there is none.
   */
  function TruncateLines(ls: seq<string>): (r: seq<string>)
    ensures |r| <= |ls| && r == ls[..|r|]
    ensures ls != [] ==> r != []
  {
    if ls == [] then []
    else if IsStopLine(ls[0]) then [ls[0]]
    else [ls[0]] + TruncateLines(ls[1..])
  }

  /** Only the last kept line may be a stop line, and it is one when lines were dropped. */
  lemma {:induction false} TruncateLinesStops(ls: seq<string>)
    ensures var r := TruncateLines(ls);
            (forall k :: 0 <= k < |r| - 1 ==> !IsStopLine(r[k])) &&
            (|r| < |ls| ==> IsStopLine(r[|r| - 1]))
  {
    if ls != [] && !IsStopLine(ls[0]) {
      TruncateLinesStops(ls[1..]);
      var r, rest := TruncateLines(ls), TruncateLines(ls[1..]);
      assert r == [ls[0]] + rest;
      forall k | 0 <= k < |r| - 1
        ensures !IsStopLine(r[k])
      {
        if k > 0 {
          assert r[k] == rest[k - 1];
        }
      }
    }
  }

  /** _truncate_request_message: split on '\n', keep the lines up to the stop line, join them again. */
  function Truncate(s: string): string
  {
    Join(TruncateLines(Lines(s)), "\n")
  }

  /** The editor's loop, which breaks right after appending the stop line. */
  method TruncateRequestMessage(s: string) returns (r: string)
    ensures r == Truncate(s)
  {
    var kept := KeepLines(Lines(s));
    r := Join(kept, "\n");
  }

  /** The loop of _truncate_request_message over the lines of the message. */
  method KeepLines(lines: seq<string>) returns (kept: seq<string>)
    ensures kept == TruncateLines(lines)
  {
    kept := [];
    var i := 0;
    while i < |lines|
      invariant 0 <= i <= |lines|
      invariant kept == lines[..i]
      invariant TruncateLines(lines) == kept + TruncateLines(lines[i..])
    {
      var line := lines[i];
      TruncateStep(lines, i);
      PrefixStep(lines, i);
      ShiftOne(kept, line, TruncateLines(lines[i + 1..]));
      kept := kept + [line];
      if IsStopLine(line) {
        break;
      }
      i := i + 1;
    }
  }

  /** One turn of the loop: line i either ends the display or is kept before the rest. */
  lemma TruncateStep(ls: seq<string>, i: nat)
    requires i < |ls|
    ensures TruncateLines(ls[i..]) == if IsStopLine(ls[i]) then [ls[i]] else [ls[i]] + TruncateLines(ls[i + 1..])
  {
    assert ls[i..][0] == ls[i];
    assert ls[i..][1..] == ls[i + 1..];
  }

  // ------------------------------------------------------------ properties

  /** Joining a prefix of the lines of s gives a prefix of s. */
  lemma {:induction false} JoinPrefix(ls: seq<string>, k: nat, sep: string)
    requires k <= |ls|
    ensures var j := Join(ls[..k], sep); |j| <= |Join(ls, sep)| && j == Join(ls, sep)[..|j|]
  {
    if k == |ls| {
      assert ls[..k] == ls;
    } else if k == 0 {
    } else {
      assert ls == ls[..k] + ls[k..];
      JoinAppend(ls[..k], ls[k..], sep);
    }
  }

  /** The displayed request is the beginning of the prompt. */
  lemma TruncateIsPrefix(s: string)
    ensures |Truncate(s)| <= |s| && Truncate(s) == s[..|Truncate(s)|]
  {
    var ls := Lines(s);
    JoinPrefix(ls, |TruncateLines(ls)|, "\n");
    JoinLines(s);
  }

  /** Lines that already end at the first stop line are kept whole. */
  lemma {:induction false} TruncateLinesIdempotent(ls: seq<string>)
    ensures TruncateLines(TruncateLines(ls)) == TruncateLines(ls)
  {
    if ls != [] && !IsStopLine(ls[0]) {
      TruncateLinesIdempotent(ls[1..]);
      var r := TruncateLines(ls);
      assert r[1..] == TruncateLines(ls[1..]);
    }
  }

  /** Truncating a displayed request again changes nothing. */
  lemma TruncateIdempotent(s: string)
    ensures Truncate(Truncate(s)) == Truncate(s)
  {
    var ls := Lines(s);
    var r := TruncateLines(ls);
    assert forall k :: 0 <= k < |r| ==> r[k] == ls[k];
    LinesOfJoin(r);
    TruncateLinesIdempotent(ls);
  }

  /** Lines before the stop line pass through unchanged. */
  lemma {:induction false} TruncateLinesAppend(a: seq<string>, b: seq<string>)
    requires forall k :: 0 <= k < |a| ==> !IsStopLine(a[k])
    ensures TruncateLines(a + b) == a + TruncateLines(b)
  {
    if a != [] {
      assert (a + b)[0] == a[0];
      assert (a + b)[1..] == a[1..] + b;
      TruncateLinesAppend(a[1..], b);
    } else {
      assert a + b == b;
    }
  }

  /** A block of text without a stop line is shown in full, followed by the truncation of what comes after it. */
  lemma TruncateAppend(x: string, y: string)
    requires NoStopLine(x)
    ensures Truncate(x + "\n" + y) == x + "\n" + Truncate(y)
  {
    LinesAppend(x, y);
    TruncateLinesAppend(Lines(x), Lines(y));
    JoinAppend(Lines(x), TruncateLines(Lines(y)), "\n");
    JoinLines(x);
  }

  /** A single stop line ends the display, whatever follows it. */
  lemma TruncateAtStop(x: string, y: string)
    requires '\n' !in x && IsStopLine(x)
    ensures Truncate(x + "\n" + y) == x
  {
    LinesAppend(x, y);
    LinesOfLine(x);
    assert Lines(x + "\n" + y)[0] == x;
  }

  /**
   * Text made of blocks joined by newlines is shown up to and including
   * block k when k is a single stop line and no block before it holds one.
   */
  lemma {:induction false} TruncateJoin(blocks: seq<string>, k: nat)
    requires k < |blocks|
    requires forall j :: 0 <= j < k ==> NoStopLine(blocks[j])
    requires '\n' !in blocks[k] && IsStopLine(blocks[k])
    ensures Truncate(Join(blocks, "\n")) == Join(blocks[..k + 1], "\n")
  {
    if |blocks| == 1 {
      LinesOfLine(blocks[0]);
      assert blocks[..1] == blocks;
    } else if k == 0 {
      TruncateAtStop(blocks[0], Join(blocks[1..], "\n"));
    } else {
      TruncateAppend(blocks[0], Join(blocks[1..], "\n"));
      TruncateJoin(blocks[1..], k - 1);
      assert blocks[1..][..k] == blocks[..k + 1][1..];
    }
  }
}
