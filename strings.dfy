/**
 * The string operations of Python's str type that the suggestion pipeline
 * uses, on ASCII text: lower(), strip(), split(), split('\n'), join(),
 * find()/`in`, startswith() and replace(c, '').
 */
module Strings {
  import opened Wrappers

  // ---------------------------------------------------------------- case

  /** str.lower() on one character; characters outside A-Z are unchanged. */
  function LowerChar(c: char): char
  {
    if 'A' <= c <= 'Z' then (c as int + 32) as char else c
  }

  /** str.lower(); on ASCII it preserves the length. */
  function Lower(s: string): (r: string)
    ensures |r| == |s|
    ensures forall i :: 0 <= i < |s| ==> r[i] == LowerChar(s[i])
  {
    seq(|s|, i requires 0 <= i < |s| => LowerChar(s[i]))
  }

  lemma LowerSlice(s: string, i: nat, j: nat)
    requires i <= j <= |s|
    ensures Lower(s[i..j]) == Lower(s)[i..j]
  {
  }

  lemma LowerAppend(a: string, b: string)
    ensures Lower(a + b) == Lower(a) + Lower(b)
  {
  }

  // ---------------------------------------------------------- whitespace

  /** The ASCII characters Python's str.isspace() accepts: \t \n \v \f \r, \x1c-\x1f and ' '. */
  predicate IsSpace(c: char)
  {
    (9 <= c as int <= 13) || (28 <= c as int <= 32)
  }

  /** A string whose strip() is empty. */
  predicate IsBlank(s: string)
  {
    forall i :: 0 <= i < |s| ==> IsSpace(s[i])
  }

  function TrimStart(s: string): (r: string)
    ensures |r| <= |s| && r == s[|s| - |r|..]
    ensures r == [] || !IsSpace(r[0])
    ensures r == [] <==> IsBlank(s)
  {
    if s != [] && IsSpace(s[0]) then TrimStart(s[1..]) else s
  }

  function TrimEnd(s: string): (r: string)
    ensures |r| <= |s| && r == s[..|r|]
    ensures r == [] || !IsSpace(r[|r| - 1])
    ensures r == [] <==> IsBlank(s)
  {
    if s != [] && IsSpace(s[|s| - 1]) then TrimEnd(s[..|s| - 1]) else s
  }

  /** Neither end is whitespace: what strip() returns. */
  predicate Stripped(s: string)
  {
    s == [] || (!IsSpace(s[0]) && !IsSpace(s[|s| - 1]))
  }

  /** str.strip(): leading and trailing whitespace removed. */
  function Strip(s: string): (r: string)
    ensures r == [] <==> IsBlank(s)
    ensures Stripped(r)
  {
    var t := TrimStart(s);
    var r := TrimEnd(t);
    assert r != [] ==> r[0] == t[0] && !IsSpace(t[0]);
    assert t != [] ==> !IsBlank(t);
    r
  }

  /** How many characters lstrip() drops. */
  function Lead(s: string): nat
  {
    |s| - |TrimStart(s)|
  }

  /**
   * strip() keeps the piece of s that starts at some offset i: every
   * character before it and every character after it is whitespace.
   */
  lemma StripDropsBlankEnds(s: string) returns (i: nat)
    ensures var r := Strip(s);
            && i + |r| <= |s| && r == s[i..i + |r|]
            && (forall j :: 0 <= j < i ==> IsSpace(s[j]))
            && (forall j :: i + |r| <= j < |s| ==> IsSpace(s[j]))
  {
    i := Lead(s);
    StripIsPiece(s);
    LeadIsBlank(s);
    TailIsBlank(s);
  }

  /** What strip() keeps starts Lead(s) characters in. */
  lemma StripIsPiece(s: string)
    ensures Lead(s) + |Strip(s)| <= |s| && Strip(s) == s[Lead(s)..Lead(s) + |Strip(s)|]
  {
    var t := TrimStart(s);
    var i := |s| - |t|;
    assert Strip(s) == TrimEnd(t) == t[..|TrimEnd(t)|];
  }

  /** The characters before what strip() keeps are whitespace. */
  lemma LeadIsBlank(s: string)
    ensures forall j :: 0 <= j < Lead(s) ==> IsSpace(s[j])
  {
    TrimStartSpaces(s);
  }

  /** The characters after what strip() keeps are whitespace. */
  lemma TailIsBlank(s: string)
    ensures forall j :: Lead(s) + |Strip(s)| <= j < |s| ==> IsSpace(s[j])
  {
    var t := TrimStart(s);
    var i := |s| - |t|;
    assert Strip(s) == TrimEnd(t);
    TrimEndSpaces(t);
    forall j | i + |Strip(s)| <= j < |s|
      ensures IsSpace(s[j])
    {
      assert s[j] == t[j - i];
    }
  }

  /** What lstrip() drops is whitespace. */
  lemma {:induction false} TrimStartSpaces(s: string)
    ensures forall j :: 0 <= j < |s| - |TrimStart(s)| ==> IsSpace(s[j])
  {
    if s != [] && IsSpace(s[0]) {
      TrimStartSpaces(s[1..]);
      forall j | 0 < j < |s| - |TrimStart(s)|
        ensures IsSpace(s[j])
      {
        assert s[j] == s[1..][j - 1];
      }
    }
  }

  /** What rstrip() drops is whitespace. */
  lemma {:induction false} TrimEndSpaces(s: string)
    ensures forall j :: |TrimEnd(s)| <= j < |s| ==> IsSpace(s[j])
  {
    if s != [] && IsSpace(s[|s| - 1]) {
      TrimEndSpaces(s[..|s| - 1]);
      forall j | |TrimEnd(s)| <= j < |s| - 1
        ensures IsSpace(s[j])
      {
        assert s[j] == s[..|s| - 1][j];
      }
    }
  }

  /** strip() leaves a string alone exactly when neither of its ends is whitespace. */
  lemma StrippedIsFixed(s: string)
    ensures Stripped(s) <==> Strip(s) == s
  {
    if s != [] && Stripped(s) {
      assert TrimStart(s) == s;
      assert TrimEnd(s) == s;
    }
  }

  /** Stripping twice is stripping once. */
  lemma StripIdempotent(s: string)
    ensures Stripped(Strip(s)) && Strip(Strip(s)) == Strip(s)
  {
    StrippedIsFixed(Strip(s));
  }

  // ------------------------------------------------------------- split()

  /** A string without any whitespace character. */
  predicate NoSpace(w: string)
  {
    forall i :: 0 <= i < |w| ==> !IsSpace(w[i])
  }

  /** The longest prefix of s that holds no whitespace. */
  function Token(s: string): (t: string)
    ensures |t| <= |s| && t == s[..|t|]
    ensures forall i :: 0 <= i < |t| ==> !IsSpace(t[i])
    ensures |t| < |s| ==> IsSpace(s[|t|])
    ensures s != [] && !IsSpace(s[0]) ==> |t| >= 1
  {
    if s == [] || IsSpace(s[0]) then [] else [s[0]] + Token(s[1..])
  }

  /** str.split() with no separator: the maximal runs of non-whitespace, in order. */
  function Words(s: string): (ws: seq<string>)
    ensures forall k :: 0 <= k < |ws| ==> ws[k] != [] && !IsSpace(ws[k][0])
    ensures forall k :: 0 <= k < |ws| ==> NoSpace(ws[k])
    decreases |s|
  {
    if s == [] then []
    else if IsSpace(s[0]) then Words(s[1..])
    else
      var t := Token(s);
      [t] + Words(s[|t|..])
  }

  /** The last whitespace-delimited word of s, or "" when s is blank (`words[-1] if words else ""`). */
  function LastWord(s: string): string
  {
    var ws := Words(s);
    if ws == [] then "" else ws[|ws| - 1]
  }

  /** Every word of s is a contiguous piece of s, found at offset i. */
  lemma {:induction false} WordOccurs(s: string, k: nat) returns (i: nat)
    requires k < |Words(s)|
    ensures i + |Words(s)[k]| <= |s| && s[i..i + |Words(s)[k]|] == Words(s)[k]
    decreases |s|, 1
  {
    if IsSpace(s[0]) {
      i := WordOccursAfterSpace(s, k);
    } else if k > 0 {
      i := WordOccursAfterToken(s, k);
    } else {
      i := 0;
    }
  }

  /** WordOccurs when s starts with whitespace: the words are those of the rest. */
  lemma {:induction false} WordOccursAfterSpace(s: string, k: nat) returns (i: nat)
    requires s != [] && IsSpace(s[0]) && k < |Words(s)|
    ensures i + |Words(s)[k]| <= |s| && s[i..i + |Words(s)[k]|] == Words(s)[k]
    decreases |s|, 0
  {
    assert Words(s) == Words(s[1..]);
    var j := WordOccurs(s[1..], k);
    i := j + 1;
    SliceOfSuffix(s, 1, j, j + |Words(s)[k]|);
  }

  /** WordOccurs for a later word when s starts with a token. */
  lemma {:induction false} WordOccursAfterToken(s: string, k: nat) returns (i: nat)
    requires s != [] && !IsSpace(s[0]) && 0 < k < |Words(s)|
    ensures i + |Words(s)[k]| <= |s| && s[i..i + |Words(s)[k]|] == Words(s)[k]
    decreases |s|, 0
  {
    var t := Token(s);
    assert Words(s) == [t] + Words(s[|t|..]);
    var w := Words(s[|t|..])[k - 1];
    assert Words(s)[k] == w;
    var j := WordOccurs(s[|t|..], k - 1);
    i := j + |t|;
    SliceOfSuffix(s, |t|, j, j + |w|);
  }

  /** A slice of a suffix is a slice of the whole. */
  lemma SliceOfSuffix<T>(s: seq<T>, a: nat, i: nat, j: nat)
    requires a <= |s| && i <= j <= |s| - a
    ensures s[a..][i..j] == s[a + i..a + j]
  {
  }

  // ------------------------------------------------------ join and lines

  /** sep.join(ws). */
  function Join(ws: seq<string>, sep: string): string
  {
    if |ws| == 0 then "" else if |ws| == 1 then ws[0] else ws[0] + sep + Join(ws[1..], sep)
  }

  /** str.split('\n'): the pieces between newlines, so never empty. */
  function Lines(s: string): (ls: seq<string>)
    ensures |ls| >= 1
    ensures forall k :: 0 <= k < |ls| ==> '\n' !in ls[k]
  {
    if s == [] then [""]
    else if s[0] == '\n' then [""] + Lines(s[1..])
    else
      var rest := Lines(s[1..]);
      [[s[0]] + rest[0]] + rest[1..]
  }

  /** '\n'.join(s.split('\n')) == s. */
  lemma {:induction false} JoinLines(s: string)
    ensures Join(Lines(s), "\n") == s
  {
    if s == [] {
    } else if s[0] == '\n' {
      JoinLines(s[1..]);
    } else {
      JoinLines(s[1..]);
      var rest := Lines(s[1..]);
      if |rest| > 1 {
        assert Lines(s)[1..] == rest[1..];
      }
    }
  }

  /** Splitting at a newline splits the list of lines. */
  lemma {:induction false} LinesAppend(a: string, b: string)
    ensures Lines(a + "\n" + b) == Lines(a) + Lines(b)
  {
    if a == [] {
      assert a + "\n" + b == "\n" + b;
      assert ("\n" + b)[1..] == b;
    } else {
      assert (a + "\n" + b)[0] == a[0];
      assert (a + "\n" + b)[1..] == a[1..] + "\n" + b;
      LinesAppend(a[1..], b);
    }
  }

  /** A piece containing no newline is a single line. */
  lemma {:induction false} LinesOfLine(a: string)
    requires '\n' !in a
    ensures Lines(a) == [a]
  {
    if a != [] {
      LinesOfLine(a[1..]);
      assert [a[0]] + a[1..] == a;
    }
  }

  /** Splitting a join of newline-free lines gives the lines back. */
  lemma {:induction false} LinesOfJoin(ls: seq<string>)
    requires |ls| >= 1
    requires forall k :: 0 <= k < |ls| ==> '\n' !in ls[k]
    ensures Lines(Join(ls, "\n")) == ls
  {
    if |ls| == 1 {
      LinesOfLine(ls[0]);
    } else {
      LinesOfJoin(ls[1..]);
      LinesAppend(ls[0], Join(ls[1..], "\n"));
      LinesOfLine(ls[0]);
    }
  }

  lemma {:induction false} JoinAppend(xs: seq<string>, ys: seq<string>, sep: string)
    requires |xs| >= 1 && |ys| >= 1
    ensures Join(xs + ys, sep) == Join(xs, sep) + sep + Join(ys, sep)
  {
    if |xs| == 1 {
      assert (xs + ys)[1..] == ys;
    } else {
      assert (xs + ys)[1..] == xs[1..] + ys;
      JoinAppend(xs[1..], ys, sep);
    }
  }

  /** Every line of s is a contiguous piece of s, found at offset i. */
  lemma {:induction false} LineOccurs(s: string, k: nat) returns (i: nat)
    requires k < |Lines(s)|
    ensures i + |Lines(s)[k]| <= |s| && s[i..i + |Lines(s)[k]|] == Lines(s)[k]
  {
    if k == 0 {
      FirstLineAtStart(s);
      i := 0;
    } else if s[0] == '\n' {
      var j := LineOccurs(s[1..], k - 1);
      assert Lines(s)[k] == Lines(s[1..])[k - 1];
      i := j + 1;
      SliceOfSuffix(s, 1, j, j + |Lines(s)[k]|);
    } else {
      var j := LineOccurs(s[1..], k);
      assert Lines(s)[k] == Lines(s[1..])[k];
      i := j + 1;
      SliceOfSuffix(s, 1, j, j + |Lines(s)[k]|);
    }
  }

  /** The first line of s is the prefix of s up to its first newline. */
  lemma {:induction false} FirstLineAtStart(s: string)
    ensures |Lines(s)[0]| <= |s| && s[..|Lines(s)[0]|] == Lines(s)[0]
  {
    if s != [] && s[0] != '\n' {
      FirstLineAtStart(s[1..]);
    }
  }

  // -------------------------------------------------------- find and in

  /** p occurs in s starting at offset i. */
  predicate OccursAt(s: string, p: string, i: int)
  {
    0 <= i && i + |p| <= |s| && s[i..i + |p|] == p
  }

  function IndexFrom(s: string, p: string, k: nat): (r: Option<nat>)
    ensures r.Some? ==> k <= r.value && OccursAt(s, p, r.value)
    ensures r.Some? ==> forall j :: k <= j < r.value ==> !OccursAt(s, p, j)
    ensures r.None? ==> forall j :: k <= j ==> !OccursAt(s, p, j)
    decreases |s| - k
  {
    if k + |p| > |s| then None
    else if s[k..k + |p|] == p then Some(k)
    else IndexFrom(s, p, k + 1)
  }

  /** str.find(p) as an option: the lowest offset at which p occurs, None for -1. */
  function IndexOf(s: string, p: string): (r: Option<nat>)
    ensures r.Some? ==> OccursAt(s, p, r.value)
    ensures r.Some? ==> forall j :: 0 <= j < r.value ==> !OccursAt(s, p, j)
    ensures r.None? ==> forall j :: !OccursAt(s, p, j)
  {
    IndexFrom(s, p, 0)
  }

  /** Python's `p in s`: p occurs somewhere in s. */
  predicate Contains(s: string, p: string)
  {
    exists i :: 0 <= i <= |s| - |p| && OccursAt(s, p, i)
  }

  /** `p in s` holds exactly when s.find(p) finds p. */
  lemma ContainsIsFound(s: string, p: string)
    ensures Contains(s, p) <==> IndexOf(s, p).Some?
  {
    if IndexOf(s, p).Some? {
      assert OccursAt(s, p, IndexOf(s, p).value);
    }
  }

  /** str.startswith(p). */
  predicate StartsWith(s: string, p: string)
  {
    |p| <= |s| && s[..|p|] == p
  }

  /** A string missing one of p's characters does not contain p. */
  lemma MissingCharNotContained(s: string, p: string, c: char)
    requires c in p && c !in s
    ensures !Contains(s, p)
  {
  }

  // --------------------------------------------------- replace(c, '')

  /** s.replace(c, ''). */
  function Remove(s: string, c: char): (r: string)
    ensures c !in r
    ensures |r| <= |s|
  {
    if s == [] then [] else (if s[0] == c then [] else [s[0]]) + Remove(s[1..], c)
  }

  lemma {:induction false} RemoveAppend(a: string, b: string, c: char)
    ensures Remove(a + b, c) == Remove(a, c) + Remove(b, c)
  {
    if a != [] {
      var head := if a[0] == c then [] else [a[0]];
      assert (a + b)[0] == a[0];
      assert (a + b)[1..] == a[1..] + b;
      RemoveAppend(a[1..], b, c);
      assert Remove(a + b, c) == head + Remove(a[1..] + b, c);
    } else {
      assert a + b == b;
    }
  }

  lemma {:induction false} RemoveKeepsOther(s: string, c: char, d: char)
    requires d !in s
    ensures d !in Remove(s, c)
  {
    if s != [] {
      RemoveKeepsOther(s[1..], c, d);
    }
  }

  /** Removing a character that does not occur changes nothing. */
  lemma {:induction false} RemoveAbsent(s: string, c: char)
    requires c !in s
    ensures Remove(s, c) == s
  {
    if s != [] {
      RemoveAbsent(s[1..], c);
      assert s == [s[0]] + s[1..];
    }
  }

  // ------------------------------------------------------------ slicing

  /** s[-n:]: the last n elements, or all of s when it is shorter. */
  function Last<T>(s: seq<T>, n: nat): (r: seq<T>)
    ensures |r| <= n && |r| <= |s|
    ensures |s| <= n ==> r == s
    ensures n <= |s| ==> |r| == n && r == s[|s| - n..]
  {
    if |s| <= n then s else s[|s| - n..]
  }

  /** Appending one element to s moves its last-n window along by one once s holds n elements. */
  lemma LastAppend<T>(s: seq<T>, x: T, n: nat)
    requires n > 0
    ensures Last(s + [x], n) == (if |s| >= n then Last(s, n)[1..] else Last(s, n)) + [x]
  {
    var h := s + [x];
    if |s| >= n {
      assert Last(h, n) == h[|h| - n..];
      assert Last(s, n)[1..] == s[|s| - n + 1..];
      assert h[|h| - n..] == s[|s| - n + 1..] + [x];
    } else {
      assert Last(h, n) == h;
    }
  }

  /** s[:n]: the first n elements, or all of s when it is shorter. */
  function First<T>(s: seq<T>, n: nat): (r: seq<T>)
    ensures |r| <= n && |r| <= |s|
    ensures r == s[..|r|]
    ensures |s| <= n ==> r == s
    ensures n <= |s| ==> |r| == n
  {
    if |s| <= n then s else s[..n]
  }

  /** The first n characters, or all of s (Tk's clamping of a column). */
  function Take(s: string, n: nat): (r: string)
    ensures |r| <= n && |r| <= |s| && r == s[..|r|]
    ensures n <= |s| ==> |r| == n
  {
    if n <= |s| then s[..n] else s
  }

  /** Cutting a sequence at i and inserting nothing there gives it back. */
  lemma InsertNothing<T>(s: seq<T>, i: nat, x: seq<T>)
    requires i <= |s| && |x| == 0
    ensures s[..i] + x + s[i..] == s
  {
    assert x == [];
  }

  /** A prefix grows by one element. */
  lemma PrefixStep<T>(s: seq<T>, i: nat)
    requires i < |s|
    ensures s[..i + 1] == s[..i] + [s[i]]
  {
  }

  /** Moving one element across a concatenation. */
  lemma ShiftOne<T>(a: seq<T>, x: T, c: seq<T>)
    ensures a + ([x] + c) == (a + [x]) + c
  {
  }
}
