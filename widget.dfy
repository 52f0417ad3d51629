/**
 * The part of the Tk text widget the suggestion logic touches: the
 * characters, which of them carry the "ghost_text" tag, and the INSERT
 * mark (an offset with right gravity).
 */
module Widget {
  import opened Position

  datatype Buffer = Buffer(text: string, tagged: seq<bool>, cursor: nat)

  predicate Valid(b: Buffer)
  {
    |b.tagged| == |b.text| && b.cursor <= |b.text|
  }

  /** index(INSERT). */
  function InsertPos(b: Buffer): Pos
    requires Valid(b)
  {
    PosOf(b.text, b.cursor)
  }

  /** get(s, e): the characters between two offsets, "" when e precedes s. */
  function Get(b: Buffer, s: nat, e: nat): (r: string)
    requires s <= |b.text| && e <= |b.text|
    ensures s <= e ==> r == b.text[s..e]
  {
    if s <= e then b.text[s..e] else ""
  }

  /** "ghost_text" in tag_names(off): the character at off carries the tag (the end of the text carries none). */
  predicate HasGhostTag(b: Buffer, off: nat)
  {
    off < |b.tagged| && b.tagged[off]
  }

  /** delete(s, e): marks inside the span move to s, marks after it move back. */
  function Delete(b: Buffer, s: nat, e: nat): (r: Buffer)
    requires Valid(b) && s <= e <= |b.text|
    ensures Valid(r)
    ensures r.text == b.text[..s] + b.text[e..]
    ensures b.cursor <= s ==> r.cursor == b.cursor
  {
    Buffer(b.text[..s] + b.text[e..], b.tagged[..s] + b.tagged[e..],
           if b.cursor >= e then b.cursor - (e - s) else if b.cursor > s then s else b.cursor)
  }

  /** insert(p, s, "ghost_text"): the new characters carry the tag; a mark at p moves after them. */
  function InsertGhost(b: Buffer, p: nat, s: string): (r: Buffer)
    requires Valid(b) && p <= |b.text|
    ensures Valid(r)
    ensures r.text == b.text[..p] + s + b.text[p..]
    ensures forall i :: p <= i < p + |s| ==> HasGhostTag(r, i)
  {
    Buffer(b.text[..p] + s + b.text[p..], b.tagged[..p] + seq(|s|, _ => true) + b.tagged[p..],
           if b.cursor >= p then b.cursor + |s| else b.cursor)
  }

  /** tag_remove("ghost_text", s, e). */
  function Untag(b: Buffer, s: nat, e: nat): (r: Buffer)
    requires Valid(b) && s <= e <= |b.text|
    ensures Valid(r) && r.text == b.text && r.cursor == b.cursor
    ensures forall i :: s <= i < e ==> !HasGhostTag(r, i)
  {
    Buffer(b.text, b.tagged[..s] + seq(e - s, _ => false) + b.tagged[e..], b.cursor)
  }

  /** mark_set(INSERT, off). */
  function MoveCursor(b: Buffer, off: nat): (r: Buffer)
    requires Valid(b) && off <= |b.text|
    ensures Valid(r) && r.text == b.text && r.tagged == b.tagged && r.cursor == off
  {
    Buffer(b.text, b.tagged, off)
  }
}
