// segment.py: paragraphs as offset intervals, and the page of an offset.
module Segment {
  import opened Prelude
  import opened Text

  // ----- Lines, as str.splitlines cuts them -----

  predicate IsBreak(c: char) {
    '\n' <= c <= '\r' || '\U{1c}' <= c <= '\U{1e}' || c == '\U{85}' || '\U{2028}' <= c <= '\U{2029}'
  }

  /** These ten characters and no others. */
  lemma BreaksAre(c: char)
    ensures IsBreak(c) <==> c in "\n\U{b}\U{c}\r\U{1c}\U{1d}\U{1e}\U{85}\U{2028}\U{2029}"
  {
  }

  /** A line begins at `p`: after a break, except between the two characters of a CR LF pair. */
  predicate LineStart(s: string, p: nat) {
    p == 0 || (p <= |s| && IsBreak(s[p - 1]) && !(s[p - 1] == '\r' && p < |s| && s[p] == '\n'))
  }

  /** Inside a text a line begins after each of the ten breaks, but not between the two characters of a CR LF pair. */
  lemma LineBegins(s: string, p: nat)
    requires 0 < p < |s|
    ensures s[p - 1] == '\r' ==> (LineStart(s, p) <==> s[p] != '\n')
    ensures s[p - 1] != '\r'
            ==> (LineStart(s, p) <==> s[p - 1] in "\n\U{b}\U{c}\U{1c}\U{1d}\U{1e}\U{85}\U{2028}\U{2029}")
    ensures LineStart(s, 0) && (LineStart(s, |s|) <==> IsBreak(s[|s| - 1]))
    ensures forall q :: q > |s| ==> !LineStart(s, q)
  {
    BreaksAre(s[p - 1]);
  }

  predicate Edge(s: string, p: nat) {
    p == |s| || LineStart(s, p)
  }

  /** Where the line that contains `p` ends, its break included. */
  function LineEnd(s: string, p: nat): (q: nat)
    requires p < |s|
    ensures p < q <= |s| && Edge(s, q)
    ensures forall k :: p < k < q ==> !LineStart(s, k)
    decreases |s| - p
  {
    if p + 1 == |s| || LineStart(s, p + 1) then p + 1 else LineEnd(s, p + 1)
  }

  /** The line that begins at `p` is blank. */
  predicate BlankLine(s: string, p: nat)
    requires p < |s|
  {
    forall k :: p <= k < LineEnd(s, p) ==> IsSpace(s[k])
  }

  // ----- Blocks of lines -----

  datatype Interval = Interval(start: nat, end: nat)

  /** Whole lines, none of them blank. */
  ghost predicate IsBlock(s: string, b: Interval) {
    && b.start < b.end <= |s| && LineStart(s, b.start) && Edge(s, b.end)
    && forall p :: b.start <= p < b.end && LineStart(s, p) ==> !BlankLine(s, p)
  }

  /** A blank line begins where `b` ends and lies before `next`. */
  ghost predicate Separated(s: string, b: Interval, next: nat) {
    b.end < |s| && LineStart(s, b.end) && BlankLine(s, b.end) && LineEnd(s, b.end) <= next
  }

  /** The open block that starts at `start` and runs up to the line start `pos`; none if they are equal. */
  ghost predicate IsOpen(s: string, start: nat, pos: nat) {
    start < pos ==> IsBlock(s, Interval(start, pos))
  }

  ghost predicate Inside(b: Interval, k: nat) {
    b.start <= k < b.end
  }

  ghost predicate Covered(blocks: seq<Interval>, k: nat) {
    exists i :: 0 <= i < |blocks| && Inside(blocks[i], k)
  }

  lemma CoveredBy(blocks: seq<Interval>, b: Interval, k: nat)
    ensures Covered(blocks + [b], k) <==> Covered(blocks, k) || Inside(b, k)
  {
    var all := blocks + [b];
    assert all[|blocks|] == b;
    if Covered(blocks, k) {
      var i :| 0 <= i < |blocks| && Inside(blocks[i], k);
      assert all[i] == blocks[i];
    }
  }

  /** Blocks of whole lines, with a blank line after each before the next. */
  ghost predicate InSequence(s: string, blocks: seq<Interval>) {
    && (forall i :: 0 <= i < |blocks| ==> IsBlock(s, blocks[i]))
    && (forall i, j :: 0 <= i < j < |blocks| ==> Separated(s, blocks[i], blocks[j].start))
  }

  ghost predicate AllBefore(s: string, blocks: seq<Interval>, start: nat) {
    forall i :: 0 <= i < |blocks| ==> Separated(s, blocks[i], start)
  }

  /** Everything before `start` that is not whitespace is in a block. */
  ghost predicate CoveredUpTo(s: string, blocks: seq<Interval>, start: nat) {
    forall k: nat :: k < start && k < |s| && !IsSpace(s[k]) ==> Covered(blocks, k)
  }

  lemma AddToSequence(s: string, blocks: seq<Interval>, b: Interval)
    requires InSequence(s, blocks) && AllBefore(s, blocks, b.start) && IsBlock(s, b)
    ensures InSequence(s, blocks + [b])
  {
  }

  lemma AddToCover(s: string, blocks: seq<Interval>, start: nat, end: nat, next: nat)
    requires CoveredUpTo(s, blocks, start) && start <= end <= next
    requires forall k: nat :: end <= k < next && k < |s| ==> IsSpace(s[k])
    ensures CoveredUpTo(s, blocks + [Interval(start, end)], next)
  {
    var b := Interval(start, end);
    forall k: nat | k < next && k < |s| && !IsSpace(s[k])
      ensures Covered(blocks + [b], k)
    {
      CoveredBy(blocks, b, k);
    }
  }

  /** Before `start` all blocks are closed; from there to the line start `pos` one may be open. */
  ghost predicate Scanning(s: string, blocks: seq<Interval>, start: nat, pos: nat) {
    && start <= pos <= |s| && Edge(s, start) && Edge(s, pos)
    && InSequence(s, blocks) && AllBefore(s, blocks, start) && CoveredUpTo(s, blocks, start) && IsOpen(s, start, pos)
  }

  lemma CloseBlock(s: string, blocks: seq<Interval>, start: nat, pos: nat)
    requires Scanning(s, blocks, start, pos) && start < pos < |s| && BlankLine(s, pos)
    ensures Scanning(s, blocks + [Interval(start, pos)], LineEnd(s, pos), LineEnd(s, pos))
  {
    var b, next := Interval(start, pos), LineEnd(s, pos);
    AddToSequence(s, blocks, b);
    AddToCover(s, blocks, start, pos, next);
    assert Separated(s, b, next);
    assert AllBefore(s, blocks + [b], next);
  }

  lemma SkipBlank(s: string, blocks: seq<Interval>, pos: nat)
    requires Scanning(s, blocks, pos, pos) && pos < |s| && BlankLine(s, pos)
    ensures Scanning(s, blocks, LineEnd(s, pos), LineEnd(s, pos))
  {
    assert CoveredUpTo(s, blocks, LineEnd(s, pos));
    assert AllBefore(s, blocks, LineEnd(s, pos));
  }

  lemma KeepOpen(s: string, blocks: seq<Interval>, start: nat, pos: nat)
    requires Scanning(s, blocks, start, pos) && pos < |s| && !BlankLine(s, pos)
    ensures Scanning(s, blocks, start, LineEnd(s, pos))
  {
    ExtendOpen(s, start, pos);
  }

  lemma CloseLast(s: string, blocks: seq<Interval>, start: nat)
    requires Scanning(s, blocks, start, |s|) && start < |s|
    ensures InSequence(s, blocks + [Interval(start, |s|)]) && CoveredUpTo(s, blocks + [Interval(start, |s|)], |s|)
  {
    AddToSequence(s, blocks, Interval(start, |s|));
    AddToCover(s, blocks, start, |s|, |s|);
  }

  lemma ExtendOpen(s: string, start: nat, pos: nat)
    requires start <= pos < |s| && LineStart(s, start) && LineStart(s, pos)
    requires IsOpen(s, start, pos) && !BlankLine(s, pos)
    ensures IsBlock(s, Interval(start, LineEnd(s, pos)))
  {
  }

  /** The blocks of lines between blank lines. */
  method FindBlocks(s: string) returns (blocks: seq<Interval>)
    ensures InSequence(s, blocks) && CoveredUpTo(s, blocks, |s|)
  {
    blocks := [];
    var pos: nat, start: nat := 0, 0;
    while pos < |s|
      invariant Scanning(s, blocks, start, pos)
    {
      var next := LineEnd(s, pos);
      if BlankLine(s, pos) {
        if start < pos {
          CloseBlock(s, blocks, start, pos);
          blocks := blocks + [Interval(start, pos)];
        } else {
          SkipBlank(s, blocks, pos);
        }
        start := next;
      } else {
        KeepOpen(s, blocks, start, pos);
      }
      pos := next;
    }
    if start < pos {
      CloseLast(s, blocks, start);
      blocks := blocks + [Interval(start, pos)];
    }
  }

  // ----- Tightening -----

  /** The characters a paragraph is stripped of. */
  predicate IsTrimmed(c: char) {
    c == ' ' || '\t' <= c <= '\r'
  }

  /** These six and no others. */
  lemma TrimmedAre(c: char)
    ensures IsTrimmed(c) <==> c in " \t\n\U{b}\U{c}\r"
  {
  }

  lemma BlockHasText(s: string, b: Interval) returns (k: nat)
    requires IsBlock(s, b)
    ensures Inside(b, k) && !IsSpace(s[k])
  {
    assert !BlankLine(s, b.start);
    k :| b.start <= k < LineEnd(s, b.start) && !IsSpace(s[k]);
  }

  /** The same interval without trimmed characters at its ends; nothing else is lost. */
  ghost predicate Tightened(s: string, b: Interval, t: Interval) {
    && b.start <= t.start < t.end <= b.end <= |s|
    && !IsTrimmed(s[t.start]) && !IsTrimmed(s[t.end - 1])
    && forall k: nat :: Inside(b, k) && !Inside(t, k) ==> IsTrimmed(s[k])
  }

  /** Where the block ends without trailing trimmed characters; `text` is some character that stays. */
  method TrimEnd(s: string, b: Interval, ghost text: nat) returns (end: nat)
    requires b.end <= |s| && Inside(b, text) && !IsTrimmed(s[text])
    ensures text < end <= b.end && !IsTrimmed(s[end - 1])
    ensures forall k: nat :: end <= k < b.end ==> IsTrimmed(s[k])
  {
    end := b.end;
    while end > b.start && IsTrimmed(s[end - 1])
      invariant text < end <= b.end
      invariant forall k: nat :: end <= k < b.end ==> IsTrimmed(s[k])
    {
      end := end - 1;
    }
  }

  method TrimStart(s: string, b: Interval, end: nat, ghost text: nat) returns (start: nat)
    requires end <= |s| && b.start <= text < end && !IsTrimmed(s[text])
    ensures b.start <= start <= text && !IsTrimmed(s[start])
    ensures forall k: nat :: b.start <= k < start ==> IsTrimmed(s[k])
  {
    start := b.start;
    while start < end && IsTrimmed(s[start])
      invariant b.start <= start <= text
      invariant forall k: nat :: b.start <= k < start ==> IsTrimmed(s[k])
    {
      start := start + 1;
    }
  }

  lemma TextIsKept(c: char)
    requires !IsSpace(c)
    ensures !IsTrimmed(c)
  {
  }

  method Tighten(s: string, b: Interval) returns (t: Interval)
    requires IsBlock(s, b)
    ensures Tightened(s, b, t)
  {
    ghost var text := BlockHasText(s, b);
    TextIsKept(s[text]);
    var end := TrimEnd(s, b, text);
    var start := TrimStart(s, b, end, text);
    t := Interval(start, end);
  }

  /** Nonempty intervals with proper end points, in order and apart. */
  ghost predicate WellPlaced(s: string, ps: seq<Interval>) {
    && (forall i :: 0 <= i < |ps| ==> ps[i].start < ps[i].end <= |s|)
    && (forall i :: 0 <= i < |ps| ==> !IsTrimmed(s[ps[i].start]) && !IsTrimmed(s[ps[i].end - 1]))
    && (forall i, j :: 0 <= i < j < |ps| ==> ps[i].end < ps[j].start)
  }

  /** No line of the interval is blank. */
  ghost predicate NoBlankLine(s: string, t: Interval) {
    forall p: nat :: p < |s| && LineStart(s, p) && BlankLine(s, p) ==> LineEnd(s, p) <= t.start || t.end <= p
  }

  /** A blank line lies between the two intervals. */
  ghost predicate Apart(s: string, t: Interval, u: Interval) {
    exists p: nat :: p < |s| && LineStart(s, p) && BlankLine(s, p) && t.end <= p && LineEnd(s, p) <= u.start
  }

  /** Intervals that a blank line parts, and that hold none. */
  ghost predicate SplitAtBlankLines(s: string, ps: seq<Interval>) {
    && (forall i :: 0 <= i < |ps| ==> NoBlankLine(s, ps[i]))
    && (forall i, j :: 0 <= i < j < |ps| ==> Apart(s, ps[i], ps[j]))
  }

  ghost predicate AllTightened(s: string, blocks: seq<Interval>, ps: seq<Interval>) {
    |ps| == |blocks| && forall i :: 0 <= i < |ps| ==> Tightened(s, blocks[i], ps[i])
  }

  /** The paragraphs: nonempty disjoint intervals in order, with end points that are not trimmed; no paragraph
      holds a blank line, one lies between any two, and every character that is not whitespace is in one. */
  method Paragraphs(s: string) returns (ps: seq<Interval>)
    ensures WellPlaced(s, ps) && SplitAtBlankLines(s, ps) && CoveredUpTo(s, ps, |s|)
  {
    var blocks := FindBlocks(s);
    ps := TightenAll(s, blocks);
    TightenedAreParagraphs(s, blocks, ps);
  }

  lemma TightenOne(s: string, blocks: seq<Interval>, ps: seq<Interval>, n: nat, t: Interval)
    requires n < |blocks| && AllTightened(s, blocks[..n], ps) && Tightened(s, blocks[n], t)
    ensures AllTightened(s, blocks[..n + 1], ps + [t])
  {
  }

  ghost predicate AllBlocks(s: string, blocks: seq<Interval>) {
    forall b :: b in blocks ==> IsBlock(s, b)
  }

  method TightenAll(s: string, blocks: seq<Interval>) returns (ps: seq<Interval>)
    requires AllBlocks(s, blocks)
    ensures AllTightened(s, blocks, ps)
  {
    ps := [];
    for n := 0 to |blocks|
      invariant AllTightened(s, blocks[..n], ps)
    {
      var b := blocks[n];
      var t := Tighten(s, b);
      TightenOne(s, blocks, ps, n, t);
      ps := ps + [t];
    }
    assert blocks[..|blocks|] == blocks;
  }

  /** No character is in two paragraphs. */
  lemma InOneParagraph(s: string, ps: seq<Interval>, k: nat, i: nat, j: nat)
    requires WellPlaced(s, ps) && i < |ps| && j < |ps| && Inside(ps[i], k) && Inside(ps[j], k)
    ensures i == j
  {
  }

  lemma TightenedNoBlank(s: string, b: Interval, t: Interval)
    requires IsBlock(s, b) && Tightened(s, b, t)
    ensures NoBlankLine(s, t)
  {
    forall p: nat | p < |s| && LineStart(s, p) && BlankLine(s, p)
      ensures LineEnd(s, p) <= t.start || t.end <= p
    {
      if p < b.start && b.start < LineEnd(s, p) {
        assert false;
      }
    }
  }

  lemma TightenedApart(s: string, b: Interval, c: Interval, t: Interval, u: Interval)
    requires IsBlock(s, b) && IsBlock(s, c) && Tightened(s, b, t) && Tightened(s, c, u) && Separated(s, b, c.start)
    ensures Apart(s, t, u) && t.end < u.start
  {
  }

  lemma TightenedCover(s: string, blocks: seq<Interval>, ps: seq<Interval>)
    requires CoveredUpTo(s, blocks, |s|) && AllTightened(s, blocks, ps)
    ensures CoveredUpTo(s, ps, |s|)
  {
    forall k: nat | k < |s| && !IsSpace(s[k])
      ensures Covered(ps, k)
    {
      var i :| 0 <= i < |blocks| && Inside(blocks[i], k);
      assert Tightened(s, blocks[i], ps[i]);
      TextIsKept(s[k]);
      assert Inside(ps[i], k);
    }
  }

  lemma TightenedSplit(s: string, blocks: seq<Interval>, ps: seq<Interval>)
    requires InSequence(s, blocks) && AllTightened(s, blocks, ps)
    ensures SplitAtBlankLines(s, ps)
    ensures forall i, j :: 0 <= i < j < |ps| ==> ps[i].end < ps[j].start
  {
    forall i | 0 <= i < |ps|
      ensures NoBlankLine(s, ps[i])
    {
      TightenedNoBlank(s, blocks[i], ps[i]);
    }
    forall i, j | 0 <= i < j < |ps|
      ensures Apart(s, ps[i], ps[j]) && ps[i].end < ps[j].start
    {
      TightenedApart(s, blocks[i], blocks[j], ps[i], ps[j]);
    }
  }

  lemma TightenedAreParagraphs(s: string, blocks: seq<Interval>, ps: seq<Interval>)
    requires InSequence(s, blocks) && CoveredUpTo(s, blocks, |s|) && AllTightened(s, blocks, ps)
    ensures WellPlaced(s, ps) && SplitAtBlankLines(s, ps) && CoveredUpTo(s, ps, |s|)
  {
    TightenedSplit(s, blocks, ps);
    TightenedCover(s, blocks, ps);
    assert forall i :: 0 <= i < |ps| ==> Tightened(s, blocks[i], ps[i]);
  }

  // ----- Pages -----

  // A page begins at an offset.
  datatype Boundary = Boundary(offset: nat, page: nat)

  ghost predicate InOrder(bounds: seq<Boundary>) {
    forall i, j :: 0 <= i <= j < |bounds| ==> bounds[i].offset <= bounds[j].offset
  }

  /** The page of the last boundary at or before the offset, if there is one. */
  ghost predicate IsPageAt(bounds: seq<Boundary>, offset: nat, page: Option<nat>) {
    match page
    case None => forall i :: 0 <= i < |bounds| ==> bounds[i].offset > offset
    case Some(n) => exists i :: LastBefore(bounds, offset, i) && bounds[i].page == n
  }

  ghost predicate LastBefore(bounds: seq<Boundary>, offset: nat, i: int) {
    && 0 <= i < |bounds| && bounds[i].offset <= offset
    && forall j :: i < j < |bounds| ==> bounds[j].offset > offset
  }

  method PageAt(bounds: seq<Boundary>, offset: nat) returns (page: Option<nat>)
    requires InOrder(bounds)
    ensures IsPageAt(bounds, offset, page)
  {
    page := None;
    for i := 0 to |bounds|
      invariant forall j :: 0 <= j < i ==> bounds[j].offset <= offset
      invariant page == if i == 0 then None else Some(bounds[i - 1].page)
    {
      if bounds[i].offset <= offset {
        page := Some(bounds[i].page);
      } else {
        assert i > 0 ==> LastBefore(bounds, offset, i - 1);
        return;
      }
    }
    assert |bounds| > 0 ==> LastBefore(bounds, offset, |bounds| - 1);
  }

  method PageForRange(bounds: seq<Boundary>, start: nat, end: nat) returns (first: Option<nat>, last: Option<nat>)
    requires InOrder(bounds)
    ensures IsPageAt(bounds, start, first)
    ensures IsPageAt(bounds, if end > start then end - 1 else start, last)
  {
    if bounds == [] {
      return None, None;
    }
    first := PageAt(bounds, start);
    last := PageAt(bounds, if end > start then end - 1 else start);
  }

  /** Where page numbers do not decrease along the document, a range does not end on an earlier page than it starts. */
  lemma PagesFollowOffsets(bounds: seq<Boundary>, offset: nat, later: nat, p: Option<nat>, q: Option<nat>)
    requires InOrder(bounds) && offset <= later && IsPageAt(bounds, offset, p) && IsPageAt(bounds, later, q)
    requires forall i, j :: 0 <= i <= j < |bounds| ==> bounds[i].page <= bounds[j].page
    ensures p.Some? ==> q.Some? && p.value <= q.value
  {
    if p.Some? {
      var i :| LastBefore(bounds, offset, i) && bounds[i].page == p.value;
      if q.Some? {
        var j :| LastBefore(bounds, later, j) && bounds[j].page == q.value;
        assert i <= j;
      }
    }
  }
}
