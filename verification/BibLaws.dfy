// The bibliography parser told by its lines and entries: when a list counts as numbered, where entries begin.
module BibLaws {
  import opened Prelude
  import opened BibParser

  // ----- Numbered lists -----

  /** The kept lines are the raw ones that cleaning left, in order; their enumerators likewise. */
  lemma CleanedIs(raw: seq<RawLine>, line: RawLine)
    ensures Cleaned([]) == []
    ensures Cleaned(raw + [line]) == if line.Some? then Cleaned(raw) + [line.value] else Cleaned(raw)
  {
    assert (raw + [line])[..|raw|] == raw;
  }

  lemma NumbersAre(lines: seq<Line>, line: Line)
    ensures Numbers([]) == []
    ensures Numbers(lines + [line])
            == if line.number.Some? then Numbers(lines) + [line.number.value] else Numbers(lines)
  {
    assert (lines + [line])[..|lines|] == lines;
  }

  lemma {:induction false} AnyNumber(lines: seq<Line>)
    ensures Numbers(lines) != [] <==> exists l :: l in lines && l.number.Some?
  {
    if lines != [] {
      var n := |lines| - 1;
      AnyNumber(lines[..n]);
      assert lines == lines[..n] + [lines[n]];
    }
  }

  /** Enumerator `i` is greater than the one before it. */
  ghost predicate Rises(nums: seq<nat>, i: int) {
    1 <= i < |nums| && nums[i] > nums[i - 1]
  }

  ghost function AllRises(nums: seq<nat>): set<int> {
    set i | 0 <= i < |nums| && Rises(nums, i)
  }

  lemma {:induction false} IncreasesAre(nums: seq<nat>)
    ensures Increases(nums) == |AllRises(nums)|
  {
    if |nums| >= 2 {
      var n := |nums| - 1;
      IncreasesAre(nums[..n]);
      var before := AllRises(nums[..n]);
      assert forall i :: 0 <= i < n ==> (Rises(nums, i) <==> Rises(nums[..n], i));
      assert AllRises(nums) == if Rises(nums, n) then before + {n} else before;
    } else {
      assert AllRises(nums) == {};
    }
  }

  /** A list counts as numbered if it has three enumerators and at least four fifths of the steps from one to the next
      go up; in a discrete sub-list one enumerator is enough. */
  lemma EnumeratedIff(lines: seq<Line>, discrete: bool)
    ensures var nums := Numbers(lines);
            Enumerated(lines, discrete)
            <==> || (discrete && exists l :: l in lines && l.number.Some?)
                 || (|nums| >= 3 && |set i | 0 <= i < |nums| && Rises(nums, i)| * 5 >= (|nums| - 1) * 4)
  {
    var nums := Numbers(lines);
    AnyNumber(lines);
    IncreasesAre(nums);
    assert AllRises(nums) == set i | 0 <= i < |nums| && Rises(nums, i);
  }

  // ----- Where entries begin -----

  /** In a numbered list an entry begins at an enumerator or a repeated-author dash and nowhere else; elsewhere also at
      an author and year, unless the line continues another. */
  lemma EntriesBeginAt(groups: seq<seq<Line>>, enumerated: bool, i: nat, j: nat)
    requires BrokenAtStarts(groups, enumerated) && i < |groups| && j < |groups[i]|
    ensures var l := groups[i][j];
            var begins := || l.number.Some? || l.dash || (!enumerated && !l.continuation && l.authorYear);
            (j > 0 ==> !begins) && (j == 0 && i > 0 ==> begins)
  {
    assert groups[i] in groups;
    assert OneEntry(groups[i], enumerated);
  }

  /** What a list loses: in a numbered list the lines before the first enumerator or dash, if there is one. */
  lemma KeptIs(lines: seq<Line>, n: nat)
    ensures Kept(lines, false) == lines
    ensures (forall l :: l in lines ==> l.number.None? && !l.dash) ==> Kept(lines, true) == lines
    ensures n < |lines| && (lines[n].number.Some? || lines[n].dash)
            && (forall i :: 0 <= i < n ==> lines[i].number.None? && !lines[i].dash)
            ==> Kept(lines, true) == lines[n..]
  {
    if forall l :: l in lines ==> l.number.None? && !l.dash {
      KeptAll(lines, true);
    }
    if n < |lines| && (lines[n].number.Some? || lines[n].dash)
       && (forall i :: 0 <= i < n ==> lines[i].number.None? && !lines[i].dash) {
      KeptFrom(lines, true, n);
    }
  }

  /** Only in a plain list without numbers are the entries split further. */
  lemma ReflowedIs(raw: seq<RawLine>, discrete: bool, cuts: Cuts)
    ensures var lines := Cleaned(raw);
            var enumerated := Enumerated(lines, discrete);
            var kept := Kept(lines, enumerated);
            var texts := Texts(Groups(kept, enumerated, |kept|));
            && (enumerated || discrete ==> Reflowed(raw, discrete, cuts) == texts)
            && (!enumerated && !discrete ==> Reflowed(raw, discrete, cuts) == SplitAll(texts, cuts))
  {
  }

  /** The text of an entry is the words of its lines, one after the other. */
  lemma TextIs(lines: seq<Line>, line: Line, groups: seq<seq<Line>>, group: seq<Line>)
    ensures WordsOf([]) == [] && WordsOf(lines + [line]) == WordsOf(lines) + line.words
    ensures Texts([]) == [] && Texts(groups + [group]) == Texts(groups) + [WordsOf(group)]
  {
    assert (lines + [line])[..|lines|] == lines;
    assert (groups + [group])[..|groups|] == groups;
  }

  // ----- The split of a collapsed line -----

  /** Some piece but the last ends after `i` words. */
  ghost predicate EndsAt(pieces: seq<Words>, i: nat) {
    exists k :: 0 < k < |pieces| && |Flat(pieces[..k])| == i
  }

  /** The pieces of an entry end exactly where the pattern cuts. */
  lemma {:induction false} PiecesEndAtCuts(entry: Words, cuts: Cuts, n: nat, i: nat)
    requires 0 < i < n <= |entry|
    ensures cuts(entry, i) <==> EndsAt(Pieces(entry, cuts, n), i)
    decreases n
  {
    var before := Pieces(entry, cuts, n - 1);
    PiecesKeepWords(entry, cuts, n - 1);
    assert |Flat(before)| == n - 1;
    assert before != [] by {
      assert Flat<nat>([]) == [];
    }
    if i < n - 1 {
      PiecesEndAtCuts(entry, cuts, n - 1, i);
    }
    PieceAdded(before, entry[n - 1], cuts(entry, n - 1), Pieces(entry, cuts, n), n - 1, i);
  }

  lemma {:induction false} FlatShorter(pieces: seq<Words>, k: nat)
    requires k < |pieces| && NoneEmpty(pieces)
    ensures |Flat(pieces[..k])| < |Flat(pieces)|
  {
    var n := |pieces| - 1;
    if k < n {
      assert pieces[..n][..k] == pieces[..k];
      FlatShorter(pieces[..n], k);
    }
  }

  lemma PieceAdded(before: seq<Words>, w: nat, opens: bool, after: seq<Words>, n: nat, i: nat)
    requires before != [] && NoneEmpty(before) && |Flat(before)| == n && 0 < i <= n
    requires after == if opens then before + [[w]] else Extended(before, w)
    ensures EndsAt(after, i) <==> if i == n then opens else EndsAt(before, i)
  {
    var m := |before|;
    forall k | 0 <= k < m
      ensures after[..k] == before[..k] && |Flat(before[..k])| < n
    {
      FlatShorter(before, k);
    }
    if opens {
      assert after[..m] == before;
    }
  }

  // ----- Entries of a list of ranges -----

  /** One range gives the entries of its texts. */
  lemma ParsedIs(r: Range, cuts: Cuts, extract: Extract)
    ensures Parsed([], cuts, extract) == []
    ensures var texts := Reflowed(r.lines, r.discrete, cuts);
            Parsed([r], cuts, extract) == Entries(texts, r.section, extract, |texts|)
  {
    var f := RangeParser(cuts, extract);
    assert Each(f, [r]) == [f(r)];
    assert [f(r)][..0] == [];
    assert Flat([f(r)]) == [] + f(r);
  }
}
