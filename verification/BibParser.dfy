// citation/bib_parser.py: wrapped reference lines become entries, and entries become records.
module BibParser {
  import opened Prelude

  // Entries are compared up to whitespace, which the parser normalises, so text is a list of words.
  type Words = seq<nat>

  // A line after cleaning, with what the line patterns say about it. `number` is the leading enumerator.
  datatype Line = Line(words: Words, number: Option<nat>, dash: bool, continuation: bool, authorYear: bool)

  // A raw line: None if cleaning leaves nothing or it is page-break debris.
  type RawLine = Option<Line>

  function Cleaned(raw: seq<RawLine>): seq<Line> {
    if raw == [] then []
    else Cleaned(raw[..|raw| - 1]) + if raw[|raw| - 1].Some? then [raw[|raw| - 1].value] else []
  }

  // ----- Numbered bibliographies -----

  function Numbers(lines: seq<Line>): seq<nat> {
    if lines == [] then []
    else
      var last := lines[|lines| - 1];
      Numbers(lines[..|lines| - 1]) + if last.number.Some? then [last.number.value] else []
  }

  function Increases(nums: seq<nat>): nat {
    if |nums| < 2 then 0 else Increases(nums[..|nums| - 1]) + if nums[|nums| - 1] > nums[|nums| - 2] then 1 else 0
  }

  /** At least three enumerators, four fifths of the steps between them upward. */
  predicate IsEnumerated(lines: seq<Line>) {
    var nums := Numbers(lines);
    |nums| >= 3 && 5 * Increases(nums) >= 4 * (|nums| - 1)
  }

  predicate Enumerated(lines: seq<Line>, discrete: bool) {
    (discrete && Numbers(lines) != []) || IsEnumerated(lines)
  }

  /** The line begins an entry. */
  predicate Starts(line: Line, enumerated: bool) {
    if enumerated then line.number.Some? || line.dash
    else line.number.Some? || line.dash || (!line.continuation && line.authorYear)
  }

  // ----- Grouping lines into entries -----

  function Flat<T>(groups: seq<seq<T>>): seq<T> {
    if groups == [] then [] else Flat(groups[..|groups| - 1]) + groups[|groups| - 1]
  }

  lemma FlatMore<T>(parts: seq<seq<T>>, last: seq<T>)
    ensures Flat(parts + [last]) == Flat(parts) + last
  {
    assert (parts + [last])[..|parts|] == parts;
  }

  /** The last part grows by one. */
  function Extended<T>(parts: seq<seq<T>>, x: T): seq<seq<T>>
    requires parts != []
  {
    parts[..|parts| - 1] + [parts[|parts| - 1] + [x]]
  }

  lemma FlatOfExtended<T>(parts: seq<seq<T>>, x: T)
    requires parts != []
    ensures Flat(Extended(parts, x)) == Flat(parts) + [x]
  {
    var front, last := parts[..|parts| - 1], parts[|parts| - 1];
    FlatMore(front, last + [x]);
    assert Flat(front) + (last + [x]) == Flat(front) + last + [x];
  }

  /** The lines of one entry: no start after the first line. */
  ghost predicate OneEntry(group: seq<Line>, enumerated: bool) {
    group != [] && forall i :: 1 <= i < |group| ==> !Starts(group[i], enumerated)
  }

  /** Entries broken exactly at start lines; the first may lack one. */
  ghost predicate BrokenAtStarts(groups: seq<seq<Line>>, enumerated: bool) {
    && (forall g :: g in groups ==> OneEntry(g, enumerated))
    && (forall i :: 1 <= i < |groups| ==> groups[i] != [] && Starts(groups[i][0], enumerated))
  }

  /** The lines that are kept: in a numbered list, those from the first start on. */
  function Kept(lines: seq<Line>, enumerated: bool): seq<Line> {
    if !enumerated || lines == [] || Starts(lines[0], enumerated) then lines
    else if exists l :: l in lines && Starts(l, enumerated) then Kept(lines[1..], enumerated)
    else lines
  }

  lemma {:induction false} KeptFrom(lines: seq<Line>, enumerated: bool, n: nat)
    requires enumerated && n < |lines| && Starts(lines[n], enumerated)
    requires forall i :: 0 <= i < n ==> !Starts(lines[i], enumerated)
    ensures Kept(lines, enumerated) == lines[n..]
    decreases n
  {
    if n > 0 {
      assert lines[n] in lines;
      assert lines[1..][n - 1] == lines[n];
      KeptFrom(lines[1..], enumerated, n - 1);
      assert lines[1..][n - 1..] == lines[n..];
    }
  }

  lemma {:induction false} KeptAll(lines: seq<Line>, enumerated: bool)
    requires forall l :: l in lines ==> !Starts(l, enumerated)
    ensures Kept(lines, enumerated) == lines
  {
  }

  /** The grouping is unique: the kept lines and their start lines determine it. */
  lemma {:induction false} GroupingIsUnique(a: seq<seq<Line>>, b: seq<seq<Line>>, enumerated: bool)
    requires BrokenAtStarts(a, enumerated) && BrokenAtStarts(b, enumerated) && Flat(a) == Flat(b)
    ensures a == b
    decreases |a|
  {
    if a == [] || b == [] {
      FlatEmpty(a, b, enumerated);
    } else {
      var m, n := |a| - 1, |b| - 1;
      assert a[m] in a && b[n] in b;
      SameLast(a, b, enumerated);
      assert Flat(a[..m]) == Flat(b[..n]) by {
        assert Flat(a)[..|Flat(a)| - |a[m]|] == Flat(a[..m]);
        assert Flat(b)[..|Flat(b)| - |b[n]|] == Flat(b[..n]);
      }
      FirstGroups(a, enumerated);
      FirstGroups(b, enumerated);
      GroupingIsUnique(a[..m], b[..n], enumerated);
      assert a == a[..m] + [a[m]] && b == b[..n] + [b[n]];
    }
  }

  /** The grouping of the first `n` lines. */
  function Groups(lines: seq<Line>, enumerated: bool, n: nat): seq<seq<Line>>
    requires n <= |lines|
    decreases n
  {
    if n == 0 then [] else Grouped(Groups(lines, enumerated, n - 1), lines[n - 1], enumerated)
  }

  /** One more line: a start line opens an entry, any other continues the last one. */
  function Grouped(groups: seq<seq<Line>>, line: Line, enumerated: bool): seq<seq<Line>> {
    if groups == [] || Starts(line, enumerated) then groups + [[line]] else Extended(groups, line)
  }

  ghost predicate IsGroupingOf(groups: seq<seq<Line>>, lines: seq<Line>, enumerated: bool) {
    BrokenAtStarts(groups, enumerated) && Flat(groups) == lines
  }

  lemma GroupedSlice(before: seq<seq<Line>>, after: seq<seq<Line>>, lines: seq<Line>, n: nat, enumerated: bool)
    requires 0 < n <= |lines| && after == Grouped(before, lines[n - 1], enumerated)
    requires IsGroupingOf(before, lines[..n - 1], enumerated)
    ensures IsGroupingOf(after, lines[..n], enumerated)
  {
    NextGroup(before, lines[..n - 1], lines[n - 1], enumerated);
    assert lines[..n] == lines[..n - 1] + [lines[n - 1]];
  }

  lemma {:induction false} GroupsBreakAtStarts(lines: seq<Line>, enumerated: bool, n: nat)
    requires n <= |lines|
    ensures IsGroupingOf(Groups(lines, enumerated, n), lines[..n], enumerated)
    decreases n
  {
    if n > 0 {
      GroupsBreakAtStarts(lines, enumerated, n - 1);
      GroupedSlice(Groups(lines, enumerated, n - 1), Groups(lines, enumerated, n), lines, n, enumerated);
    }
  }

  lemma OpenGroup(groups: seq<seq<Line>>, line: Line, enumerated: bool)
    requires BrokenAtStarts(groups, enumerated) && (groups == [] || Starts(line, enumerated))
    ensures BrokenAtStarts(groups + [[line]], enumerated) && Flat(groups + [[line]]) == Flat(groups) + [line]
  {
    FlatMore(groups, [line]);
  }

  lemma ExtendGroup(groups: seq<seq<Line>>, line: Line, enumerated: bool)
    requires BrokenAtStarts(groups, enumerated) && groups != [] && !Starts(line, enumerated)
    ensures BrokenAtStarts(Extended(groups, line), enumerated) && Flat(Extended(groups, line)) == Flat(groups) + [line]
  {
    var n, longer := |groups| - 1, Extended(groups, line);
    FlatOfExtended(groups, line);
    assert OneEntry(groups[n], enumerated);
    forall g | g in longer
      ensures OneEntry(g, enumerated)
    {
      if g in groups[..n] {
        assert g in groups;
      }
    }
  }

  /** The one grouping that breaks exactly at start lines. */
  lemma GroupingIsGroups(groups: seq<seq<Line>>, enumerated: bool)
    requires BrokenAtStarts(groups, enumerated)
    ensures groups == Groups(Flat(groups), enumerated, |Flat(groups)|)
  {
    var f := Flat(groups);
    GroupsBreakAtStarts(f, enumerated, |f|);
    assert f[..|f|] == f;
    GroupingIsUnique(groups, Groups(f, enumerated, |f|), enumerated);
  }

  lemma NextGroup(groups: seq<seq<Line>>, seen: seq<Line>, line: Line, enumerated: bool)
    requires IsGroupingOf(groups, seen, enumerated)
    ensures IsGroupingOf(Grouped(groups, line, enumerated), seen + [line], enumerated)
  {
    if groups == [] || Starts(line, enumerated) {
      OpenGroup(groups, line, enumerated);
    } else {
      ExtendGroup(groups, line, enumerated);
    }
  }

  lemma FirstGroups(a: seq<seq<Line>>, enumerated: bool)
    requires BrokenAtStarts(a, enumerated) && a != []
    ensures BrokenAtStarts(a[..|a| - 1], enumerated)
  {
    assert forall g :: g in a[..|a| - 1] ==> g in a;
  }

  lemma FlatEmpty(a: seq<seq<Line>>, b: seq<seq<Line>>, enumerated: bool)
    requires BrokenAtStarts(a, enumerated) && BrokenAtStarts(b, enumerated) && Flat(a) == Flat(b)
    requires a == [] || b == []
    ensures a == b
  {
    if a != [] {
      FlatNonempty(a, enumerated);
    }
    if b != [] {
      FlatNonempty(b, enumerated);
    }
  }

  lemma FlatNonempty(a: seq<seq<Line>>, enumerated: bool)
    requires BrokenAtStarts(a, enumerated) && a != []
    ensures Flat(a) != []
  {
    assert OneEntry(a[|a| - 1], enumerated);
  }

  /** The last group runs from the last start line, or it is everything. */
  lemma LastGroup(a: seq<seq<Line>>, enumerated: bool)
    requires BrokenAtStarts(a, enumerated) && a != []
    ensures var g, f := a[|a| - 1], Flat(a);
            && 0 < |g| <= |f| && f[|f| - |g|..] == g
            && (forall i :: |f| - |g| < i < |f| ==> !Starts(f[i], enumerated))
            && (|g| < |f| ==> Starts(f[|f| - |g|], enumerated))
            && (|g| == |f| ==> |a| == 1)
  {
    var m := |a| - 1;
    var g, f := a[m], Flat(a);
    assert g in a;
    assert f == Flat(a[..m]) + g;
    if m > 0 {
      assert a[m - 1] in a;
      assert Flat(a[..m]) == Flat(a[..m][..m - 1]) + a[m - 1];
    }
  }

  lemma SameLast(a: seq<seq<Line>>, b: seq<seq<Line>>, enumerated: bool)
    requires BrokenAtStarts(a, enumerated) && BrokenAtStarts(b, enumerated) && Flat(a) == Flat(b) && a != [] && b != []
    ensures a[|a| - 1] == b[|b| - 1]
  {
    LastGroup(a, enumerated);
    LastGroup(b, enumerated);
    assert |a[|a| - 1]| == |b[|b| - 1]|;
  }

  // ----- The reflow loop -----

  /** What the loop has built from the kept part of the lines seen. */
  ghost predicate Building(groups: seq<seq<Line>>, buffer: seq<Line>, kept: seq<Line>, enumerated: bool) {
    && BrokenAtStarts(groups, enumerated)
    && Flat(groups) + buffer == kept
    && (buffer == [] ==> groups == [])
    && (buffer != [] ==> OneEntry(buffer, enumerated))
    && (groups != [] ==> Starts(buffer[0], enumerated))
  }

  lemma Close(groups: seq<seq<Line>>, buffer: seq<Line>, kept: seq<Line>, enumerated: bool)
    requires Building(groups, buffer, kept, enumerated) && buffer != []
    ensures BrokenAtStarts(groups + [buffer], enumerated) && Flat(groups + [buffer]) == kept
  {
    var all := groups + [buffer];
    assert all[..|groups|] == groups;
  }

  lemma Add(groups: seq<seq<Line>>, buffer: seq<Line>, kept: seq<Line>, enumerated: bool, line: Line)
    requires Building(groups, buffer, kept, enumerated)
    ensures !Starts(line, enumerated) || buffer == [] ==> Building(groups, buffer + [line], kept + [line], enumerated)
    ensures Starts(line, enumerated) && buffer != [] ==> Building(groups + [buffer], [line], kept + [line], enumerated)
  {
    if buffer != [] {
      Close(groups, buffer, kept, enumerated);
    }
    assert Flat(groups) + (buffer + [line]) == kept + [line];
  }

  /** The state of the loop before line `i`: the kept part of the lines seen begins at `from`, which is the first
      start of a numbered list once that has been seen. */
  ghost predicate Grouping(
      lines: seq<Line>, i: nat, from: nat, seenFirst: bool, groups: seq<seq<Line>>, buffer: seq<Line>, enumerated: bool)
  {
    && from <= i <= |lines| && Building(groups, buffer, lines[from..i], enumerated)
    && (if seenFirst then enumerated && from < i && Starts(lines[from], enumerated) else from == 0)
    && (enumerated ==> NoStarts(lines, if seenFirst then from else i))
    && (enumerated && !seenFirst ==> groups == [])
  }

  ghost predicate NoStarts(lines: seq<Line>, n: nat) {
    forall j :: 0 <= j < n && j < |lines| ==> !Starts(lines[j], true)
  }

  lemma FirstStart(lines: seq<Line>, i: nat, groups: seq<seq<Line>>, buffer: seq<Line>)
    requires Grouping(lines, i, 0, false, groups, buffer, true) && i < |lines| && Starts(lines[i], true)
    ensures Grouping(lines, i + 1, i, true, groups, [lines[i]], true)
  {
    assert lines[i..i + 1] == [lines[i]];
  }

  lemma NextLine(
      lines: seq<Line>, i: nat, from: nat, seenFirst: bool, groups: seq<seq<Line>>, buffer: seq<Line>, enumerated: bool)
    requires Grouping(lines, i, from, seenFirst, groups, buffer, enumerated) && i < |lines|
    requires enumerated && Starts(lines[i], enumerated) ==> seenFirst
    ensures if Starts(lines[i], enumerated) && buffer != []
            then Grouping(lines, i + 1, from, seenFirst, groups + [buffer], [lines[i]], enumerated)
            else Grouping(lines, i + 1, from, seenFirst, groups, buffer + [lines[i]], enumerated)
  {
    Add(groups, buffer, lines[from..i], enumerated, lines[i]);
    assert lines[from..i + 1] == lines[from..i] + [lines[i]];
  }

  lemma Finish(
      lines: seq<Line>, from: nat, seenFirst: bool, groups: seq<seq<Line>>, buffer: seq<Line>, enumerated: bool)
    requires Grouping(lines, |lines|, from, seenFirst, groups, buffer, enumerated)
    ensures Flat(groups) + buffer == Kept(lines, enumerated)
    ensures buffer != []
            ==> BrokenAtStarts(groups + [buffer], enumerated) && Flat(groups + [buffer]) == Kept(lines, enumerated)
  {
    assert lines[from..|lines|] == lines[from..];
    if seenFirst {
      KeptFrom(lines, enumerated, from);
    } else if enumerated {
      KeptAll(lines, enumerated);
    }
    if buffer != [] {
      Close(groups, buffer, lines[from..], enumerated);
    }
  }

  /** The entries of a range of lines, each as its lines: every kept line is in exactly one entry, in order, and
      entries break exactly at start lines. */
  /** The loop's body: the first start of a numbered list drops the preamble, every later one closes an entry. */
  method GroupLine(
      lines: seq<Line>, i: nat, ghost from: nat, seen: bool, before: seq<seq<Line>>, open: seq<Line>, enumerated: bool)
    returns (groups: seq<seq<Line>>, buffer: seq<Line>, seenFirst: bool, ghost from': nat)
    requires Grouping(lines, i, from, seen, before, open, enumerated) && i < |lines|
    ensures Grouping(lines, i + 1, from', seenFirst, groups, buffer, enumerated)
  {
    groups, buffer, seenFirst, from' := before, open, seen, from;
    var start := Starts(lines[i], enumerated);
    if enumerated && start && !seenFirst {
      FirstStart(lines, i, groups, buffer);
      buffer := [];
      seenFirst, from' := true, i;
    } else {
      NextLine(lines, i, from, seenFirst, groups, buffer, enumerated);
    }
    if start && buffer != [] {
      groups := groups + [buffer];
      buffer := [];
    }
    buffer := buffer + [lines[i]];
  }

  method GroupLines(lines: seq<Line>, enumerated: bool) returns (groups: seq<seq<Line>>)
    ensures BrokenAtStarts(groups, enumerated)
    ensures Flat(groups) == Kept(lines, enumerated)
  {
    groups := [];
    var buffer: seq<Line>, seenFirst := [], false;
    ghost var from := 0;
    for i := 0 to |lines|
      invariant Grouping(lines, i, from, seenFirst, groups, buffer, enumerated)
    {
      groups, buffer, seenFirst, from := GroupLine(lines, i, from, seenFirst, groups, buffer, enumerated);
    }
    Finish(lines, from, seenFirst, groups, buffer, enumerated);
    if buffer != [] {
      groups := groups + [buffer];
    }
  }

  // ----- The text of the entries -----

  function WordsOf(lines: seq<Line>): Words {
    if lines == [] then [] else WordsOf(lines[..|lines| - 1]) + lines[|lines| - 1].words
  }

  /** Entries as text: one for each group, none lost. */
  function Texts(groups: seq<seq<Line>>): (texts: seq<Words>)
    ensures |texts| == |groups|
  {
    if groups == [] then [] else Texts(groups[..|groups| - 1]) + [WordsOf(groups[|groups| - 1])]
  }

  lemma {:induction false} WordsJoin(a: seq<Line>, b: seq<Line>)
    ensures WordsOf(a + b) == WordsOf(a) + WordsOf(b)
  {
    if b == [] {
      assert a + b == a;
    } else {
      var n := |b| - 1;
      assert (a + b)[..|a + b| - 1] == a + b[..n];
      WordsJoin(a, b[..n]);
    }
  }

  /** Joining the entries gives back exactly the words of the kept lines. */
  lemma {:induction false} TextsKeepWords(groups: seq<seq<Line>>)
    ensures Flat(Texts(groups)) == WordsOf(Flat(groups))
  {
    if groups != [] {
      var n := |groups| - 1;
      TextsKeepWords(groups[..n]);
      WordsJoin(Flat(groups[..n]), groups[n]);
      assert Texts(groups)[..n] == Texts(groups[..n]);
    }
  }

  // Where the collapse split cuts an entry: before word `i`. The pattern consumes only whitespace.
  type Cuts = (Words, nat) -> bool

  /** The pieces of an entry up to word `n`. */
  function Pieces(entry: Words, cuts: Cuts, n: nat): seq<Words>
    requires n <= |entry|
    decreases n
  {
    if n == 0 then []
    else
      var before := Pieces(entry, cuts, n - 1);
      if before == [] || cuts(entry, n - 1) then before + [[entry[n - 1]]]
      else Extended(before, entry[n - 1])
  }

  ghost predicate NoneEmpty(pieces: seq<Words>) {
    forall i :: 0 <= i < |pieces| ==> pieces[i] != []
  }

  ghost predicate PiecesOf(pieces: seq<Words>, words: Words) {
    Flat(pieces) == words && NoneEmpty(pieces)
  }

  /** Splitting loses no word, yields no empty piece, and cuts exactly where the pattern says. */
  lemma {:induction false} PiecesKeepWords(entry: Words, cuts: Cuts, n: nat)
    requires n <= |entry|
    ensures PiecesOf(Pieces(entry, cuts, n), entry[..n])
    decreases n
  {
    if n > 0 {
      PiecesKeepWords(entry, cuts, n - 1);
      var before, opens := Pieces(entry, cuts, n - 1), cuts(entry, n - 1);
      PieceNext(before, Pieces(entry, cuts, n), opens, entry, n);
    }
  }

  lemma PieceNext(before: seq<Words>, after: seq<Words>, opens: bool, entry: Words, n: nat)
    requires 0 < n <= |entry| && PiecesOf(before, entry[..n - 1])
    requires after == if before == [] || opens then before + [[entry[n - 1]]] else Extended(before, entry[n - 1])
    ensures PiecesOf(after, entry[..n])
  {
    var w := entry[n - 1];
    assert entry[..n] == entry[..n - 1] + [w];
    if before == [] || opens {
      AddPiece(before, w);
    } else {
      FlatOfExtended(before, w);
      ExtendPiece(before, w);
    }
  }

  lemma AddPiece(pieces: seq<Words>, w: nat)
    requires NoneEmpty(pieces)
    ensures Flat(pieces + [[w]]) == Flat(pieces) + [w] && NoneEmpty(pieces + [[w]])
  {
    FlatMore(pieces, [w]);
  }

  lemma ExtendPiece(pieces: seq<Words>, w: nat)
    requires pieces != [] && NoneEmpty(pieces)
    ensures NoneEmpty(Extended(pieces, w))
  {
  }

  function SplitAll(entries: seq<Words>, cuts: Cuts): seq<Words>
    decreases |entries|
  {
    if entries == [] then []
    else
      var e := entries[|entries| - 1];
      SplitAll(entries[..|entries| - 1], cuts) + Pieces(e, cuts, |e|)
  }

  lemma {:induction false} FlatJoin<T>(a: seq<seq<T>>, b: seq<seq<T>>)
    ensures Flat(a + b) == Flat(a) + Flat(b)
  {
    if b == [] {
      assert a + b == a;
    } else {
      var n := |b| - 1;
      assert a + b == a + b[..n] + [b[n]] && b == b[..n] + [b[n]];
      FlatJoin(a, b[..n]);
      FlatMore(a + b[..n], b[n]);
      FlatMore(b[..n], b[n]);
      assert Flat(a) + Flat(b[..n]) + b[n] == Flat(a) + (Flat(b[..n]) + b[n]);
    }
  }

  lemma {:induction false} SplitKeepsWords(entries: seq<Words>, cuts: Cuts)
    ensures Flat(SplitAll(entries, cuts)) == Flat(entries)
    decreases |entries|
  {
    if entries != [] {
      var n := |entries| - 1;
      var e := entries[n];
      SplitKeepsWords(entries[..n], cuts);
      PiecesKeepWords(e, cuts, |e|);
      assert e[..|e|] == e;
      FlatJoin(SplitAll(entries[..n], cuts), Pieces(e, cuts, |e|));
    }
  }

  /** The entries of a range of lines; short name-year sections are split further. */
  function Reflowed(raw: seq<RawLine>, discrete: bool, cuts: Cuts): seq<Words> {
    var lines := Cleaned(raw);
    var enumerated := Enumerated(lines, discrete);
    var kept := Kept(lines, enumerated);
    var texts := Texts(Groups(kept, enumerated, |kept|));
    if enumerated || discrete then texts else SplitAll(texts, cuts)
  }

  /** No word of a kept line is lost, duplicated or moved. */
  lemma ReflowKeepsWords(raw: seq<RawLine>, discrete: bool, cuts: Cuts)
    ensures var lines := Cleaned(raw);
            Flat(Reflowed(raw, discrete, cuts)) == WordsOf(Kept(lines, Enumerated(lines, discrete)))
  {
    var lines := Cleaned(raw);
    var enumerated := Enumerated(lines, discrete);
    var kept := Kept(lines, enumerated);
    GroupsBreakAtStarts(kept, enumerated, |kept|);
    assert kept[..|kept|] == kept;
    TextsKeepWords(Groups(kept, enumerated, |kept|));
    SplitKeepsWords(Texts(Groups(kept, enumerated, |kept|)), cuts);
  }

  method Reflow(raw: seq<RawLine>, discrete: bool, cuts: Cuts) returns (entries: seq<Words>)
    ensures entries == Reflowed(raw, discrete, cuts)
  {
    var lines := Cleaned(raw);
    var enumerated := Enumerated(lines, discrete);
    var groups := GroupLines(lines, enumerated);
    GroupingIsGroups(groups, enumerated);
    entries := Texts(groups);
    if !enumerated && !discrete {
      entries := SplitAll(entries, cuts);
    }
  }

  // ----- Entries -----

  // What the field patterns extract from an entry: whether it opens with the repeated-author dash, and the
  // first author's name if one is found.
  datatype Fields = Fields(dash: bool, author: Option<nat>)

  type Extract = Words -> Fields

  datatype BibEntry = BibEntry(words: Words, section: nat, ordinal: nat, author: Option<nat>, continued: bool)

  /** _entry_from_raw: a repeated-author entry without an author of its own takes the previous one. */
  function EntryFrom(words: Words, section: nat, ordinal: nat, previous: Option<nat>, extract: Extract): BibEntry {
    var f := extract(words);
    var author := if f.dash && f.author.None? then previous else f.author;
    BibEntry(words, section, ordinal, author, f.dash && author.Some?)
  }

  /** The author named by the nearest of the first `n` texts that names one. */
  function NearestAuthor(texts: seq<Words>, extract: Extract, n: nat): Option<nat>
    requires n <= |texts|
    decreases n
  {
    if n == 0 then None
    else if extract(texts[n - 1]).author.Some? then extract(texts[n - 1]).author
    else NearestAuthor(texts, extract, n - 1)
  }

  /** The entries of the first `n` texts of a range: numbered from one, each author-less repeated-author entry
      taking the nearest earlier author of this very range. */
  function Entries(texts: seq<Words>, section: nat, extract: Extract, n: nat): (entries: seq<BibEntry>)
    requires n <= |texts|
    ensures |entries| == n
    decreases n
  {
    if n == 0 then []
    else
      Entries(texts, section, extract, n - 1)
      + [EntryFrom(texts[n - 1], section, n, NearestAuthor(texts, extract, n - 1), extract)]
  }

  method ParseRange(texts: seq<Words>, section: nat, extract: Extract) returns (entries: seq<BibEntry>)
    ensures entries == Entries(texts, section, extract, |texts|)
  {
    entries := [];
    var previous: Option<nat> := None;
    for i := 0 to |texts|
      invariant entries == Entries(texts, section, extract, i) && previous == NearestAuthor(texts, extract, i)
    {
      var e := EntryFrom(texts[i], section, i + 1, previous, extract);
      entries := entries + [e];
      if e.author.Some? {
        previous := e.author;
      }
    }
  }

  /** Ordinals run from one; an entry's author is its own, or for a repeated-author entry the nearest earlier one
      of the range, if any. */
  lemma {:induction false} EntryAt(texts: seq<Words>, section: nat, extract: Extract, n: nat, i: nat)
    requires i < n <= |texts|
    ensures var e, f := Entries(texts, section, extract, n)[i], extract(texts[i]);
            && e.words == texts[i] && e.ordinal == i + 1 && e.section == section
            && e.author == (if f.author.Some? || !f.dash then f.author else NearestAuthor(texts, extract, i))
            && (e.continued <==> f.dash && e.author.Some?)
    decreases n
  {
    if i < n - 1 {
      EntryAt(texts, section, extract, n - 1, i);
    }
  }

  /** The nearest author is the one of the last earlier text that names any. */
  lemma {:induction false} NearestIsNearest(texts: seq<Words>, extract: Extract, n: nat)
    requires n <= |texts|
    ensures var a := NearestAuthor(texts, extract, n);
            if a.None? then forall j :: 0 <= j < n ==> extract(texts[j]).author.None?
            else exists k :: 0 <= k < n && extract(texts[k]).author == a &&
                             forall j :: k < j < n ==> extract(texts[j]).author.None?
    decreases n
  {
    if n > 0 && extract(texts[n - 1]).author.None? {
      NearestIsNearest(texts, extract, n - 1);
    }
  }

  datatype Range = Range(lines: seq<RawLine>, discrete: bool, section: nat)

  function ParsedRange(r: Range, cuts: Cuts, extract: Extract): seq<BibEntry> {
    var texts := Reflowed(r.lines, r.discrete, cuts);
    Entries(texts, r.section, extract, |texts|)
  }

  function RangeParser(cuts: Cuts, extract: Extract): Range -> seq<BibEntry> {
    r => ParsedRange(r, cuts, extract)
  }

  function Each<A, B>(f: A -> B, s: seq<A>): seq<B>
    decreases |s|
  {
    if s == [] then [] else Each(f, s[..|s| - 1]) + [f(s[|s| - 1])]
  }

  function Parsed(ranges: seq<Range>, cuts: Cuts, extract: Extract): seq<BibEntry> {
    Flat(Each(RangeParser(cuts, extract), ranges))
  }

  method ParseReferences(ranges: seq<Range>, cuts: Cuts, extract: Extract) returns (entries: seq<BibEntry>)
    ensures entries == Parsed(ranges, cuts, extract)
  {
    entries := [];
    for i := 0 to |ranges|
      invariant entries == Parsed(ranges[..i], cuts, extract)
    {
      assert ranges[..i + 1][..i] == ranges[..i];
      var texts := Reflow(ranges[i].lines, ranges[i].discrete, cuts);
      var some := ParseRange(texts, ranges[i].section, extract);
      entries := entries + some;
    }
    assert ranges[..|ranges|] == ranges;
  }

  /** Ranges do not influence each other: parsing a list of them is parsing its parts. */
  lemma ParseConcat(a: seq<Range>, b: seq<Range>, cuts: Cuts, extract: Extract)
    ensures Parsed(a + b, cuts, extract) == Parsed(a, cuts, extract) + Parsed(b, cuts, extract)
  {
    var f := RangeParser(cuts, extract);
    EachConcat(f, a, b);
    FlatJoin(Each(f, a), Each(f, b));
  }

  lemma {:induction false} EachConcat<A, B>(f: A -> B, a: seq<A>, b: seq<A>)
    ensures Each(f, a + b) == Each(f, a) + Each(f, b)
    decreases |b|
  {
    if b == [] {
      assert a + b == a;
    } else {
      var n := |b| - 1;
      assert (a + b)[..|a + b| - 1] == a + b[..n];
      EachConcat(f, a, b[..n]);
    }
  }
}
