/**
 * The overlap resolver: what part of the model's completion to show given
 * the word the user is in the middle of typing. Matching is
 * case-insensitive (ASCII), the output keeps the completion's own case.
 */
module Overlap {
  import opened Wrappers
  import opened Strings

  /** The first token at index k or later whose lower-case form starts with lw: the search of strategy 3. */
  function FirstTokenWithPrefix(ws: seq<string>, lw: string, k: nat): (r: Option<nat>)
    ensures r.Some? ==> k <= r.value < |ws| && StartsWith(Lower(ws[r.value]), lw)
    ensures r.Some? ==> forall j :: k <= j < r.value ==> !StartsWith(Lower(ws[j]), lw)
    ensures r.None? ==> forall j :: k <= j < |ws| ==> !StartsWith(Lower(ws[j]), lw)
    decreases |ws| - k
  {
    if k >= |ws| then None
    else if StartsWith(Lower(ws[k]), lw) then Some(k)
    else FirstTokenWithPrefix(ws, lw, k + 1)
  }

  /**
   * Strategies 3 and 4: the rest of the first token that starts with w,
   * then the tokens after it joined by single spaces; the completion
   * unchanged when no token starts with w.
   */
  function TokenPrefixTrim(w: string, c: string): string
  {
    var ws := Words(c);
    match FirstTokenWithPrefix(ws, Lower(w), 0)
    case Some(k) =>
      var rem := ws[k][|w|..];
      var rest := ws[k + 1..];
      if rest != [] then rem + " " + Join(rest, " ") else rem
    case None => c
  }

  /** The four strategies in the order the editor tries them, after the empty-word shortcut. */
  function TrimOverlap(w: string, c: string): string
  {
    if w == [] then c
    else if StartsWith(Lower(c), Lower(w)) then c[|w|..]
    else
      match IndexOf(Lower(c), Lower(w))
      case Some(pos) => c[pos + |w|..]
      case None => TokenPrefixTrim(w, c)
  }

  /** Where the remainder to show begins: just after the first case-insensitive occurrence of w, or at 0. */
  function OverlapEnd(w: string, c: string): (k: nat)
    ensures k <= |c|
  {
    if w == [] then 0
    else
      match IndexOf(Lower(c), Lower(w))
      case Some(i) => i + |w|
      case None => 0
  }

  /**
   * Strategy 3 can never fire: a token that starts with w (ignoring case)
   * is a piece of the completion, so w already occurs in the completion
   * and strategy 2 has answered.
   */
  lemma TokenPrefixUnreachable(w: string, c: string)
    requires IndexOf(Lower(c), Lower(w)).None?
    ensures FirstTokenWithPrefix(Words(c), Lower(w), 0).None?
    ensures TokenPrefixTrim(w, c) == c
  {
    var ws := Words(c);
    var r := FirstTokenWithPrefix(ws, Lower(w), 0);
    if r.Some? {
      var i := WordOccurs(c, r.value);
      PrefixOfPieceOccurs(c, ws[r.value], i, Lower(w));
      assert false;
    }
  }

  /** A piece of s whose lower-case form starts with lw puts lw inside Lower(s). */
  lemma PrefixOfPieceOccurs(s: string, t: string, i: nat, lw: string)
    requires i + |t| <= |s| && s[i..i + |t|] == t
    requires StartsWith(Lower(t), lw)
    ensures OccursAt(Lower(s), lw, i)
  {
    LowerSlice(s, i, i + |t|);
    assert Lower(s)[i..i + |lw|] == Lower(t)[..|lw|];
  }

  /**
   * The resolver drops everything up to and including the first
   * case-insensitive occurrence of the word, and nothing when there is
   * none; a prefix match is the occurrence at offset 0.
   */
  lemma TrimOverlapDropsThroughFirstMatch(w: string, c: string)
    ensures TrimOverlap(w, c) == c[OverlapEnd(w, c)..]
  {
    if w != [] {
      var lc, lw := Lower(c), Lower(w);
      if StartsWith(lc, lw) {
        assert OccursAt(lc, lw, 0);
      } else if IndexOf(lc, lw).None? {
        TokenPrefixUnreachable(w, c);
      }
    }
  }

  /** What is shown is always a suffix of the completion, never longer than it. */
  lemma TrimOverlapIsSuffix(w: string, c: string)
    ensures |TrimOverlap(w, c)| <= |c|
    ensures TrimOverlap(w, c) == c[|c| - |TrimOverlap(w, c)|..]
  {
    TrimOverlapDropsThroughFirstMatch(w, c);
  }

  /** The result is empty exactly when the first occurrence of the word ends the completion. */
  lemma TrimOverlapEmpty(w: string, c: string)
    ensures TrimOverlap(w, c) == [] <==> OverlapEnd(w, c) == |c|
  {
    TrimOverlapDropsThroughFirstMatch(w, c);
  }

  /** The resolver as the editor runs it: early returns and a loop over the completion's tokens. */
  method TrimCompletionOverlap(w: string, c: string) returns (r: string)
    ensures r == TrimOverlap(w, c)
    ensures r == c[OverlapEnd(w, c)..]
  {
    TrimOverlapDropsThroughFirstMatch(w, c);
    if w == [] {
      return c;
    }
    var lc, lw := Lower(c), Lower(w);
    if StartsWith(lc, lw) {
      return c[|w|..];
    }
    var pos := IndexOf(lc, lw);
    if pos.Some? {
      return c[pos.value + |w|..];
    }
    var ws := Words(c);
    var k := 0;
    while k < |ws|
      invariant 0 <= k <= |ws|
      invariant FirstTokenWithPrefix(ws, lw, 0) == FirstTokenWithPrefix(ws, lw, k)
    {
      if StartsWith(Lower(ws[k]), lw) {
        var rem := ws[k][|w|..];
        var rest := ws[k + 1..];
        if rest != [] {
          r := rem + " " + Join(rest, " ");
        } else {
          r := rem;
        }
        return;
      }
      k := k + 1;
    }
    return c;
  }

  // Worked examples: prefix, first occurrence, an occurrence inside a
  // token, a prefix followed by more tokens, and the empty word.

  lemma ExamplePrefix()
    ensures TrimOverlap("pri", "print(x)") == "nt(x)"
  {
    assert StartsWith(Lower("print(x)"), Lower("pri"));
  }

  /** An occurrence at i with none before it decides the result. */
  lemma TrimAtFirstOccurrence(w: string, c: string, i: nat)
    requires w != [] && OccursAt(Lower(c), Lower(w), i)
    requires forall j :: 0 <= j < i ==> !OccursAt(Lower(c), Lower(w), j)
    ensures TrimOverlap(w, c) == c[i + |w|..]
  {
    TrimOverlapDropsThroughFirstMatch(w, c);
  }

  lemma ExampleFirstOccurrence()
    ensures TrimOverlap("val", "the value is here") == "ue is here"
  {
    var c := "the value is here";
    FirstOccurrenceMatch();
    assert Lower("val") == "val";
    assert c[7..] == "ue is here";
    TrimAtFirstOccurrence("val", c, 4);
  }

  /** "val" first occurs at offset 4 of the lowered "the value is here". */
  lemma FirstOccurrenceMatch()
    ensures OccursAt(Lower("the value is here"), "val", 4)
    ensures forall j :: 0 <= j < 4 ==> !OccursAt(Lower("the value is here"), "val", j)
  {
    var c := "the value is here";
    LowerSlice(c, 0, 7);
    assert c[0..7] == "the val";
    assert Lower("the val") == "the val";
    var lc := Lower(c);
    forall j | 0 <= j < 4
      ensures !OccursAt(lc, "val", j)
    {
      assert lc[j] != 'v';
    }
  }

  lemma ExampleInsideToken()
    ensures TrimOverlap("calc", "def calculate_sum(a, b):") == "ulate_sum(a, b):"
  {
    var c := "def calculate_sum(a, b):";
    InsideTokenMatch();
    assert Lower("calc") == "calc";
    assert c[8..] == "ulate_sum(a, b):";
    TrimAtFirstOccurrence("calc", c, 4);
  }

  /** "calc" first occurs at offset 4 of the lowered "def calculate_sum(a, b):". */
  lemma InsideTokenMatch()
    ensures OccursAt(Lower("def calculate_sum(a, b):"), "calc", 4)
    ensures forall j :: 0 <= j < 4 ==> !OccursAt(Lower("def calculate_sum(a, b):"), "calc", j)
  {
    var c := "def calculate_sum(a, b):";
    LowerSlice(c, 0, 8);
    assert c[0..8] == "def calc";
    assert Lower("def calc") == "def calc";
    var lc := Lower(c);
    forall j | 0 <= j < 4
      ensures !OccursAt(lc, "calc", j)
    {
      assert lc[j] != 'c';
    }
  }

  lemma ExampleMoreTokens()
    ensures TrimOverlap("fo", "foo bar baz") == "o bar baz"
  {
    assert StartsWith(Lower("foo bar baz"), Lower("fo"));
  }

  lemma ExampleEmptyWord()
    ensures TrimOverlap("", "anything") == "anything"
  {
  }

  lemma ExampleCaseInsensitive()
    ensures TrimOverlap("PRI", "Print(x)") == "nt(x)"
  {
    assert Lower("Print(x)")[..3] == "pri" == Lower("PRI");
  }
}
