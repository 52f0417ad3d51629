/**
 * The completion prompt the engine sends, and what the editor's request
 * pane shows of it. The template is assembled from short pieces so that
 * facts about its characters stay small.
 */
module Prompt {
  import opened Strings
  import opened RequestLog

  const IntroLine := "You are an AI " + "coding assistant. " + "Complete the Python code " + "at the cursor position."
  const BeforeLabel := "Context before:"
  const CursorLabel := "Current line (cursor at end): "
  const AfterLabel := "Context after:"
  const Instruction := "Complete the code " + "at the cursor position. " + "Provide only the completion text, " + "no explanations."
  const Focus := "Focus on:\n"
    + "1. Syntactically correct Python code\n"
    + "2. Following the existing code style and patterns\n"
    + "3. Completing the current statement or adding the next logical statement\n"
    + "4. Keeping the completion concise and relevant\n"
    + "\nCompletion:"

  /**
   * The twelve blocks of the prompt template, in order, each ending where
   * the template starts a new line: the fields are placed whole, the current
   * line right after its label, and the closing "Focus on:" list (itself
   * several lines) last. PromptText writes the joined prompt out.
   */
  function PromptBlocks(before: string, line: string, after: string): (bs: seq<string>)
    ensures |bs| == 12
  {
    [IntroLine, "", BeforeLabel, before, "", CursorLabel + line, "", AfterLabel, after, "", Instruction, Focus]
  }

  /** _build_completion_prompt: the template's blocks joined by newlines. */
  function BuildPrompt(before: string, line: string, after: string): string
  {
    Join(PromptBlocks(before, line, after), "\n")
  }

  /** The prompt up to and including the instruction line. */
  function PromptHead(before: string, line: string, after: string): string
  {
    Join(PromptBlocks(before, line, after)[..11], "\n")
  }

  /**
   * The prompt written out: the introduction, a blank line, the context
   * before under its label, a blank line, the current line right after its
   * label, a blank line, the context after under its label, a blank line,
   * the instruction and the "Focus on:" list.
   */
  lemma PromptText(before: string, line: string, after: string)
    ensures BuildPrompt(before, line, after) ==
      IntroLine + "\n\n" + BeforeLabel + "\n" + before + "\n\n" + CursorLabel + line + "\n\n" +
      AfterLabel + "\n" + after + "\n\n" + Instruction + "\n" + Focus
  {
    TemplateText(IntroLine, BeforeLabel, before, CursorLabel, line, AfterLabel, after, Instruction, Focus);
  }

  /** The template's twelve blocks, for any pieces, joined by newlines. */
  lemma TemplateText(intro: string, bl: string, b: string, cl: string, l: string, al: string, a: string, ins: string, f: string)
    ensures Join([intro, "", bl, b, "", cl + l, "", al, a, "", ins, f], "\n") ==
      intro + "\n\n" + bl + "\n" + b + "\n\n" + cl + l + "\n\n" + al + "\n" + a + "\n\n" + ins + "\n" + f
  {
    var ws := [intro, "", bl, b, "", cl + l, "", al, a, "", ins, f];
    JoinTwelve(ws);
    var p1 := intro;
    BlankBlock(p1);
    var p2 := p1 + "\n\n" + bl + "\n" + b;
    BlankBlock(p2);
    var p3 := p2 + "\n\n";
    assert p3 + (cl + l) == p3 + cl + l;
    var p4 := p3 + cl + l;
    BlankBlock(p4);
    var p5 := p4 + "\n\n" + al + "\n" + a;
    BlankBlock(p5);
  }

  /** An empty block between two separators leaves an empty line. */
  lemma BlankBlock(x: string)
    ensures x + "\n" + "" + "\n" == x + "\n\n"
  {
  }

  /** Twelve blocks joined by newlines, written out. */
  lemma JoinTwelve(ws: seq<string>)
    requires |ws| == 12
    ensures Join(ws, "\n") ==
      ws[0] + "\n" + ws[1] + "\n" + ws[2] + "\n" + ws[3] + "\n" + ws[4] + "\n" + ws[5] + "\n" + ws[6] + "\n" + ws[7] + "\n" + ws[8] + "\n" + ws[9] + "\n" + ws[10] + "\n" + ws[11]
  {
    var n := "\n";
    assert ws[..1] == [ws[0]];
    var j1 := ws[0];
    assert ws[..2][..1] == ws[..1];
    JoinSnoc(ws[..2], n); var j2 := j1 + n + ws[1]; assert Join(ws[..2], n) == j2;
    assert ws[..3][..2] == ws[..2];
    JoinSnoc(ws[..3], n); var j3 := j2 + n + ws[2]; assert Join(ws[..3], n) == j3;
    assert ws[..4][..3] == ws[..3];
    JoinSnoc(ws[..4], n); var j4 := j3 + n + ws[3]; assert Join(ws[..4], n) == j4;
    assert ws[..5][..4] == ws[..4];
    JoinSnoc(ws[..5], n); var j5 := j4 + n + ws[4]; assert Join(ws[..5], n) == j5;
    assert ws[..6][..5] == ws[..5];
    JoinSnoc(ws[..6], n); var j6 := j5 + n + ws[5]; assert Join(ws[..6], n) == j6;
    assert ws[..7][..6] == ws[..6];
    JoinSnoc(ws[..7], n); var j7 := j6 + n + ws[6]; assert Join(ws[..7], n) == j7;
    assert ws[..8][..7] == ws[..7];
    JoinSnoc(ws[..8], n); var j8 := j7 + n + ws[7]; assert Join(ws[..8], n) == j8;
    assert ws[..9][..8] == ws[..8];
    JoinSnoc(ws[..9], n); var j9 := j8 + n + ws[8]; assert Join(ws[..9], n) == j9;
    assert ws[..10][..9] == ws[..9];
    JoinSnoc(ws[..10], n); var j10 := j9 + n + ws[9]; assert Join(ws[..10], n) == j10;
    assert ws[..11][..10] == ws[..10];
    JoinSnoc(ws[..11], n); var j11 := j10 + n + ws[10]; assert Join(ws[..11], n) == j11;
    assert ws[..12][..11] == ws[..11];
    JoinSnoc(ws[..12], n); var j12 := j11 + n + ws[11]; assert Join(ws[..12], n) == j12;
    assert ws[..12] == ws;
  }

  /** Appending a block to a join adds a separator and the block. */
  lemma {:induction false} JoinSnoc(ws: seq<string>, sep: string)
    requires |ws| >= 2
    ensures Join(ws, sep) == Join(ws[..|ws| - 1], sep) + sep + ws[|ws| - 1]
    decreases |ws|
  {
    if |ws| == 2 {
      assert ws[1..] == [ws[1]] && ws[..1] == [ws[0]];
    } else {
      var t := ws[1..];
      JoinSnoc(t, sep);
      assert t[..|t| - 1] == ws[..|ws| - 1][1..];
    }
  }

  // ------------------------------------------------------- character facts

  /** A lower-case letter absent from s in both cases is absent from Lower(s). */
  lemma LowerAvoids(s: string, c: char)
    requires 'a' <= c <= 'z'
    requires c !in s && ((c as int - 32) as char) !in s
    ensures c !in Lower(s)
  {
    forall i | 0 <= i < |s|
      ensures Lower(s)[i] != c
    {
      assert s[i] != c;
    }
  }

  /** A one-line piece of text that lacks one of the marker's letters is not a stop line. */
  lemma LacksMarkerLetter(s: string, c: char)
    requires 'a' <= c <= 'z' && c in Marker
    requires c !in s && ((c as int - 32) as char) !in s
    ensures !IsStopLine(s)
  {
    LowerAvoids(s, c);
    MissingCharNotContained(Lower(s), Marker, c);
  }

  /** A piece of a string that does not mention the marker does not mention it either. */
  lemma SliceLacksMarker(s: string, i: nat, j: nat)
    requires i <= j <= |s| && !IsStopLine(s)
    ensures !IsStopLine(s[i..j])
  {
    LowerSlice(s, i, j);
    var ls := Lower(s[i..j]);
    forall k: int | 0 <= k && k + |Marker| <= |ls|
      ensures !OccursAt(ls, Marker, k)
    {
      assert ls[k..k + |Marker|] == Lower(s)[i + k..i + k + |Marker|];
      assert !OccursAt(Lower(s), Marker, i + k);
    }
  }

  /** No line of a field that does not mention the marker is a stop line. */
  lemma FieldLinesNoStop(f: string)
    requires !IsStopLine(f)
    ensures NoStopLine(f)
  {
    forall k | 0 <= k < |Lines(f)|
      ensures !IsStopLine(Lines(f)[k])
    {
      FieldLineNoStop(f, k);
    }
  }

  /** Line k of a field is a piece of it, so it does not mention the marker either. */
  lemma FieldLineNoStop(f: string, k: nat)
    requires !IsStopLine(f) && k < |Lines(f)|
    ensures !IsStopLine(Lines(f)[k])
  {
    var i := LineOccurs(f, k);
    SliceLacksMarker(f, i, i + |Lines(f)[k]|);
  }

  /** A label and the first line of a field share a line of the prompt. */
  lemma {:induction false} LinesAfterLabel(head: string, f: string)
    requires '\n' !in head
    ensures Lines(head + f) == [head + Lines(f)[0]] + Lines(f)[1..]
    decreases |head|
  {
    if head != [] {
      assert (head + f)[0] == head[0];
      assert (head + f)[1..] == head[1..] + f;
      LinesAfterLabel(head[1..], f);
      var rest := Lines(head[1..] + f);
      assert rest[0] == head[1..] + Lines(f)[0] && rest[1..] == Lines(f)[1..];
      assert Lines(head + f) == [[head[0]] + rest[0]] + rest[1..];
      assert [head[0]] + (head[1..] + Lines(f)[0]) == head + Lines(f)[0];
    } else {
      assert head + f == f;
      assert head + Lines(f)[0] == Lines(f)[0];
      assert Lines(f) == [Lines(f)[0]] + Lines(f)[1..];
    }
  }

  /** The cursor label in lower case. */
  lemma CursorLabelLowered()
    ensures Lower(CursorLabel) == "current line (cursor at end): "
  {
  }

  /** The cursor label in lower case: 30 characters, no 'x', and none of its last four is 'n'. */
  lemma CursorLabelLower()
    ensures |Lower(CursorLabel)| == 30
    ensures 'x' !in Lower(CursorLabel)
    ensures forall i :: 26 <= i < 30 ==> Lower(CursorLabel)[i] != 'n'
  {
    CursorLabelLowered();
    var lcl := "current line (cursor at end): ";
    assert lcl[26..] == "d): ";
  }

  /**
   * "Current line (cursor at end): " followed by a line that does not
   * mention the marker does not mention it: an occurrence would have to
   * start in the label, which contains no 'x' and no 'n' near its end.
   */
  lemma CursorLineNoStop(l0: string)
    requires !IsStopLine(l0)
    ensures !IsStopLine(CursorLabel + l0)
  {
    LowerAppend(CursorLabel, l0);
    var low := Lower(CursorLabel) + Lower(l0);
    forall i: int | 0 <= i && i + |Marker| <= |low|
      ensures !OccursAt(low, Marker, i)
    {
      CursorLineNoMarkerAt(l0, i);
    }
  }

  /** The marker does not start at offset i of the lowered cursor line. */
  lemma CursorLineNoMarkerAt(l0: string, i: int)
    requires !IsStopLine(l0)
    requires 0 <= i && i + |Marker| <= |Lower(CursorLabel) + Lower(l0)|
    ensures !OccursAt(Lower(CursorLabel) + Lower(l0), Marker, i)
  {
    CursorLabelLower();
    var lcl := Lower(CursorLabel);
    var low := lcl + Lower(l0);
    if i >= 30 {
      SliceOfSuffix(low, 30, i - 30, i - 30 + |Marker|);
      assert low[30..] == Lower(l0);
      assert !OccursAt(Lower(l0), Marker, i - 30);
    } else if i + 4 < 30 {
      assert low[i..i + |Marker|][4] == lcl[i + 4] != Marker[4];
    } else {
      assert low[i..i + |Marker|][0] == lcl[i] != Marker[0];
    }
  }

  /** The introduction line is one line and not a stop line: it has no 'x' in either case. */
  lemma IntroLineFacts()
    ensures '\n' !in IntroLine && !IsStopLine(IntroLine)
  {
    IntroLineNoLowerX();
    IntroLineNoUpperX();
    IntroLineOneLine();
    LacksMarkerLetter(IntroLine, 'x');
  }

  lemma IntroLineNoLowerX()
    ensures 'x' !in IntroLine
  {
  }

  lemma IntroLineNoUpperX()
    ensures 'X' !in IntroLine
  {
  }

  lemma IntroLineOneLine()
    ensures '\n' !in IntroLine
  {
  }

  /** "Context before:" is one line without a 'p' in either case, so not a stop line. */
  lemma BeforeLabelFacts()
    ensures '\n' !in BeforeLabel && !IsStopLine(BeforeLabel)
  {
    assert 'p' !in BeforeLabel && 'P' !in BeforeLabel;
    LacksMarkerLetter(BeforeLabel, 'p');
  }

  /** "Context after:" is one line without a 'p' in either case, so not a stop line. */
  lemma AfterLabelFacts()
    ensures '\n' !in AfterLabel && !IsStopLine(AfterLabel)
  {
    assert 'p' !in AfterLabel && 'P' !in AfterLabel;
    LacksMarkerLetter(AfterLabel, 'p');
  }

  lemma CursorLabelOneLine()
    ensures '\n' !in CursorLabel
  {
  }

  /** The instruction line is where the display stops: it ends with "no explanations.". */
  lemma InstructionFacts()
    ensures '\n' !in Instruction && IsStopLine(Instruction)
  {
    InstructionOneLine();
    InstructionEnd();
    var p12 := "Complete the code " + "at the cursor position. " + "Provide only the completion text, ";
    var p3 := "no explanations.";
    LowerAppend(p12, p3);
    assert Lower(Instruction)[|p12|..|p12| + 15] == Lower(p3)[..15];
    assert OccursAt(Lower(Instruction), Marker, |p12|);
  }

  lemma InstructionOneLine()
    ensures '\n' !in Instruction
  {
  }

  /** The instruction ends with the marker followed by a full stop, all in lower case already. */
  lemma InstructionEnd()
    ensures Lower("no explanations.")[..15] == Marker
  {
  }

  /** The empty line between two blocks is not a stop line. */
  lemma EmptyLineNoStop()
    ensures NoStopLine("")
  {
    assert Lower("") == "";
    assert Lines("") == [""];
  }

  /** A single line that is not a stop line. */
  lemma OneLineNoStop(s: string)
    requires '\n' !in s && !IsStopLine(s)
    ensures NoStopLine(s)
  {
    LinesOfLine(s);
  }

  /** The current line shares its first line with the label and adds no stop line. */
  lemma CursorBlockNoStop(line: string)
    requires !IsStopLine(line)
    ensures NoStopLine(CursorLabel + line)
  {
    CursorLabelOneLine();
    FieldLinesNoStop(line);
    LinesAfterLabel(CursorLabel, line);
    var ll := Lines(line);
    CursorLineNoStop(ll[0]);
    var cl := Lines(CursorLabel + line);
    forall k | 0 <= k < |cl|
      ensures !IsStopLine(cl[k])
    {
      if k > 0 {
        assert cl[k] == ll[k];
      }
    }
  }

  // ---------------------------------------------------------------- result

  /**
   * When no field mentions "no explanations" (in any case), the request
   * pane shows the prompt up to and including the instruction line and
   * hides the "Focus on:" list after it.
   */
  lemma PromptTruncatesAtInstruction(before: string, line: string, after: string)
    requires !IsStopLine(before) && !IsStopLine(line) && !IsStopLine(after)
    ensures Truncate(BuildPrompt(before, line, after)) == PromptHead(before, line, after)
  {
    BlocksBeforeInstruction(before, line, after);
    InstructionFacts();
    TruncateJoin(PromptBlocks(before, line, after), 10);
  }

  /** None of the ten blocks before the instruction holds a stop line. */
  lemma BlocksBeforeInstruction(before: string, line: string, after: string)
    requires !IsStopLine(before) && !IsStopLine(line) && !IsStopLine(after)
    ensures forall j :: 0 <= j < 10 ==> NoStopLine(PromptBlocks(before, line, after)[j])
  {
    var bs := PromptBlocks(before, line, after);
    forall j | 0 <= j < 10
      ensures NoStopLine(bs[j])
    {
      if j == 0 {
        IntroLineFacts();
        OneLineNoStop(IntroLine);
      } else if j == 2 {
        BeforeLabelFacts();
        OneLineNoStop(BeforeLabel);
      } else if j == 3 {
        FieldLinesNoStop(before);
      } else if j == 5 {
        CursorBlockNoStop(line);
      } else if j == 7 {
        AfterLabelFacts();
        OneLineNoStop(AfterLabel);
      } else if j == 8 {
        FieldLinesNoStop(after);
      } else {
        assert j == 1 || j == 4 || j == 6 || j == 9;
        EmptyLineNoStop();
      }
    }
  }
}
