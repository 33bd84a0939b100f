// agent_setup/__init__.py: the fenced block that is written into CLAUDE.md.
module ClaudeBlock {
  import opened Prelude
  import opened Text

  // Text with the two markers as single tokens. In a marker "<" only comes first and ">" only comes last, so
  // occurrences never overlap and joining texts at marker boundaries creates no new ones.
  datatype Token = Begin | End | Ch(c: char)

  type Tokens = seq<Token>

  const NEWLINE: Token := Ch('\n')

  const RETURN: Token := Ch('\r')

  predicate Marker(t: Token) {
    t == Begin || t == End
  }

  predicate Plain(t: Tokens) {
    forall i :: 0 <= i < |t| ==> !Marker(t[i])
  }

  predicate Space(t: Token) {
    t.Ch? && IsSpace(t.c)
  }

  /** read_text(): universal newlines, CRLF and CR come in as LF. Writing puts LF out as it is. */
  function AsRead(t: Tokens): Tokens {
    if t == [] then [] else [ReadHead(t)] + AsRead(t[Taken(t)..])
  }

  function ReadHead(t: Tokens): Token
    requires t != []
  {
    if t[0] == RETURN then NEWLINE else t[0]
  }

  /** How much of the text the first character read takes up. */
  function Taken(t: Tokens): (n: nat)
    requires t != []
    ensures 1 <= n <= |t|
  {
    if t[0] == RETURN && |t| > 1 && t[1] == NEWLINE then 2 else 1
  }

  /** block.rstrip(). */
  function Stripped(block: Tokens): (r: Tokens)
    ensures r <= block
  {
    if block != [] && Space(block[|block| - 1]) then Stripped(block[..|block| - 1]) else block
  }

  function Fenced(block: Tokens): Tokens {
    [Begin, NEWLINE] + Stripped(block) + [NEWLINE, End, NEWLINE]
  }

  /** The first place of a marker. */
  function Find(t: Tokens, marker: Token): (r: Option<nat>)
    ensures r.Some? ==> r.value < |t| && t[r.value] == marker && forall i :: 0 <= i < r.value ==> t[i] != marker
    ensures r.None? ==> forall i :: 0 <= i < |t| ==> t[i] != marker
  {
    if t == [] then None
    else
      var before := Find(t[..|t| - 1], marker);
      assert t == t[..|t| - 1] + [t[|t| - 1]];
      if before.Some? then before else if t[|t| - 1] == marker then Some(|t| - 1) else None
  }

  /** A begin marker before the first end marker: the region to replace. */
  predicate HasRegion(t: Tokens) {
    Find(t, Begin).Some? && Find(t, End).Some? && Find(t, End).value > Find(t, Begin).value
  }

  function Before(t: Tokens): Tokens
    requires HasRegion(t)
  {
    t[..Find(t, Begin).value]
  }

  function After(t: Tokens): Tokens
    requires HasRegion(t)
  {
    t[Find(t, End).value + 1..]
  }

  /** What an append puts between the old text and the fence: an end of line if it lacks one, and a blank line. */
  function Padding(t: Tokens): (p: Tokens)
    ensures 1 <= |p| <= 2 && forall i :: 0 <= i < |p| ==> p[i] == NEWLINE
  {
    if t != [] && t[|t| - 1] == NEWLINE then [NEWLINE] else [NEWLINE, NEWLINE]
  }

  /** The text after writing the fenced text `f` over a text as read; inside a file its last newline is dropped. */
  function WithFence(file: Option<Tokens>, f: Tokens): Tokens
    requires f != []
  {
    if file.None? then f
    else if HasRegion(file.value) then Before(file.value) + f[..|f| - 1] + After(file.value)
    else file.value + Padding(file.value) + f
  }

  function Reading(file: Option<Tokens>): Option<Tokens> {
    if file.None? then None else Some(AsRead(file.value))
  }

  /** The file after writing the block. */
  function Written(file: Option<Tokens>, block: Tokens): Tokens {
    WithFence(Reading(file), Fenced(block))
  }

  /** text.rstrip("\n"). */
  function WithoutNewlines(t: Tokens): Tokens {
    if t != [] && t[|t| - 1] == NEWLINE then WithoutNewlines(t[..|t| - 1]) else t
  }

  // ----- Writing, step by step -----

  /** str.find: the first place of a marker, or -1. */
  method Search(t: Tokens, marker: Token) returns (place: int)
    ensures place == -1 <==> Find(t, marker).None?
    ensures place != -1 ==> Find(t, marker) == Some(place)
  {
    for i := 0 to |t|
      invariant forall j :: 0 <= j < i ==> t[j] != marker
    {
      if t[i] == marker {
        FirstIs(t, marker, i);
        return i;
      }
    }
    return -1;
  }

  method StripSpaces(block: Tokens) returns (r: Tokens)
    ensures r == Stripped(block)
  {
    r := block;
    while r != [] && Space(r[|r| - 1])
      invariant Stripped(r) == Stripped(block)
      decreases |r|
    {
      r := r[..|r| - 1];
    }
  }

  method StripNewlines(t: Tokens) returns (r: Tokens)
    ensures r == WithoutNewlines(t)
  {
    r := t;
    while r != [] && r[|r| - 1] == NEWLINE
      invariant WithoutNewlines(r) == WithoutNewlines(t)
      decreases |r|
    {
      r := r[..|r| - 1];
    }
  }

  /** Only the newline after the end marker is stripped. */
  lemma FenceWithoutNewlines(f: Tokens)
    requires |f| >= 2 && f[|f| - 1] == NEWLINE && f[|f| - 2] == End
    ensures WithoutNewlines(f) == f[..|f| - 1]
  {
  }

  class File {
    var content: Option<Tokens>

    constructor ()
      ensures content == None
    {
      content := None;
    }

    /** write_claude_block: no file, a file with a fenced region, any other file. */
    method WriteBlock(block: Tokens)
      modifies this
      ensures content == Some(Written(old(content), block))
    {
      var body := StripSpaces(block);
      var fenced := [Begin, NEWLINE] + body + [NEWLINE, End, NEWLINE];
      if content.None? {
        content := Some(fenced);
        return;
      }
      var existing := AsRead(content.value);
      var start := Search(existing, Begin);
      var end := Search(existing, End);
      if start != -1 && end != -1 && end > start {
        end := end + 1;
        var core := StripNewlines(fenced);
        FenceWithoutNewlines(fenced);
        content := Some(existing[..start] + core + existing[end..]);
      } else {
        var prefix := if existing != [] && existing[|existing| - 1] == NEWLINE then existing else existing + [NEWLINE];
        assert prefix + ([NEWLINE] + fenced) == existing + Padding(existing) + fenced;
        content := Some(prefix + ([NEWLINE] + fenced));
      }
    }
  }

  // ----- Reading -----

  predicate NoReturns(t: Tokens) {
    RETURN !in t
  }

  lemma {:induction false} ReadHasNoReturns(t: Tokens)
    ensures NoReturns(AsRead(t))
  {
    if t != [] {
      ReadHasNoReturns(t[Taken(t)..]);
    }
  }

  /** Reading leaves a text alone exactly if it has no carriage return. */
  lemma {:induction false} ReadIsIdleIff(t: Tokens)
    ensures AsRead(t) == t <==> NoReturns(t)
  {
    ReadHasNoReturns(t);
    if t != [] && NoReturns(t) {
      ReadIsIdleIff(t[1..]);
      assert t == [t[0]] + t[1..];
    }
  }

  lemma TakenBefore(a: Tokens, m: Token, b: Tokens)
    requires Marker(m) && a != []
    ensures var t := a + [m] + b;
            t[0] == a[0] && Taken(t) == Taken(a) && t[Taken(t)..] == a[Taken(a)..] + [m] + b
  {
    var t := a + [m] + b;
    assert |a| == 1 ==> t[1] == m;
  }

  /** Reading works on both sides of a marker alone. */
  lemma {:induction false} ReadSplits(a: Tokens, m: Token, b: Tokens)
    requires Marker(m)
    ensures AsRead(a + [m] + b) == AsRead(a) + [m] + AsRead(b)
  {
    if a == [] {
      assert [] + [m] + b == [m] + b;
      ReadMarker(m, b);
    } else {
      var rest := a[Taken(a)..];
      assert AsRead(rest + [m] + b) == AsRead(rest) + [m] + AsRead(b) by {
        ReadSplits(rest, m, b);
      }
      ReadBefore(a, m, b);
      PutBefore(ReadHead(a), AsRead(rest), m, AsRead(b));
    }
  }

  lemma PutBefore(h: Token, x: Tokens, m: Token, y: Tokens)
    ensures [h] + x + [m] + y == [h] + (x + [m] + y)
  {
  }

  lemma ReadMarker(m: Token, b: Tokens)
    requires Marker(m)
    ensures AsRead([m] + b) == [m] + AsRead(b)
  {
    assert ([m] + b)[1..] == b;
  }

  lemma ReadBefore(a: Tokens, m: Token, b: Tokens)
    requires Marker(m) && a != []
    ensures AsRead(a + [m] + b) == [ReadHead(a)] + AsRead(a[Taken(a)..] + [m] + b)
    ensures AsRead(a) == [ReadHead(a)] + AsRead(a[Taken(a)..])
  {
    TakenBefore(a, m, b);
  }

  lemma {:induction false} ReadHasMarkers(t: Tokens, m: Token)
    requires Marker(m)
    ensures m in AsRead(t) <==> m in t
  {
    if t != [] {
      var n := Taken(t);
      ReadHasMarkers(t[n..], m);
      assert t == t[..n] + t[n..];
      assert m in t[..n] <==> m == t[0];
    }
  }

  lemma FindIff(t: Tokens, m: Token)
    ensures Find(t, m).Some? <==> m in t
  {
  }

  /** A text cut at its first marker. */
  lemma CutAtFirst(a: Tokens, m: Token, b: Tokens)
    requires m !in a
    ensures var t := a + [m] + b;
            Find(t, m) == Some(|a|) && t[..|a|] == a && t[|a| + 1..] == b
  {
    var t := a + [m] + b;
    assert forall j :: 0 <= j < |a| ==> t[j] == a[j];
    FirstIs(t, m, |a|);
  }

  lemma ReadCutAtFirst(a: Tokens, m: Token, b: Tokens)
    requires Marker(m) && m !in a
    ensures var read := AsRead(a + [m] + b);
            && Find(read, m) == Some(|AsRead(a)|) && |AsRead(a)| < |read|
            && read[..|AsRead(a)|] == AsRead(a) && read[|AsRead(a)| + 1..] == AsRead(b)
  {
    ReadSplits(a, m, b);
    ReadHasMarkers(a, m);
    CutAtFirst(AsRead(a), m, AsRead(b));
  }

  lemma FindInReadIff(t: Tokens, m: Token)
    requires Marker(m)
    ensures Find(AsRead(t), m).None? <==> Find(t, m).None?
  {
    ReadHasMarkers(t, m);
    FindIff(t, m);
    FindIff(AsRead(t), m);
  }

  /** The first marker is at `i`, in the text as read at `p`, with the same text around it, as read. */
  ghost predicate CutInRead(t: Tokens, read: Tokens, m: Token, i: nat, p: nat) {
    && Find(t, m) == Some(i) && Find(read, m) == Some(p)
    && p == |AsRead(t[..i])| && read[..p] == AsRead(t[..i]) && read[p + 1..] == AsRead(t[i + 1..])
  }

  lemma FindInRead(t: Tokens, m: Token) returns (i: nat, p: nat)
    requires Marker(m) && Find(t, m).Some?
    ensures CutInRead(t, AsRead(t), m, i, p)
  {
    i := Find(t, m).value;
    p := |AsRead(t[..i])|;
    assert t == t[..i] + [m] + t[i + 1..];
    ReadCutAtFirst(t[..i], m, t[i + 1..]);
  }

  lemma ReadGrows(t: Tokens, i: nat, j: nat)
    requires i < j <= |t| && Marker(t[i])
    ensures |AsRead(t[..i])| < |AsRead(t[..j])|
  {
    assert t[..j] == t[..i] + [t[i]] + t[i + 1..j];
    ReadSplits(t[..i], t[i], t[i + 1..j]);
  }

  /** Markers come in the same order in the text as read. */
  lemma OrderInRead(t: Tokens, i: nat, j: nat)
    requires i < |t| && j < |t| && Marker(t[i]) && Marker(t[j])
    ensures |AsRead(t[..i])| < |AsRead(t[..j])| <==> i < j
  {
    if i < j {
      ReadGrows(t, i, j);
    } else if j < i {
      ReadGrows(t, j, i);
    }
  }

  lemma RegionAround(t: Tokens, read: Tokens, i: nat, j: nat, p: nat, q: nat)
    requires CutInRead(t, read, Begin, i, p) && CutInRead(t, read, End, j, q) && (p < q <==> i < j)
    ensures HasRegion(read) <==> HasRegion(t)
    ensures HasRegion(t) ==> Before(read) == AsRead(Before(t)) && After(read) == AsRead(After(t))
  {
  }

  /** A text has a fenced region exactly if it has one as read, with the same text around it, as read. */
  lemma RegionInRead(t: Tokens)
    ensures HasRegion(AsRead(t)) <==> HasRegion(t)
    ensures HasRegion(t) ==> Before(AsRead(t)) == AsRead(Before(t)) && After(AsRead(t)) == AsRead(After(t))
  {
    if Find(t, Begin).None? || Find(t, End).None? {
      FindInReadIff(t, Begin);
      FindInReadIff(t, End);
    } else {
      var i, p := FindInRead(t, Begin);
      var j, q := FindInRead(t, End);
      OrderInRead(t, i, j);
      RegionAround(t, AsRead(t), i, j, p, q);
    }
  }

  lemma PlainInRead(t: Tokens)
    ensures Plain(AsRead(t)) <==> Plain(t)
  {
    ReadHasMarkers(t, Begin);
    ReadHasMarkers(t, End);
    assert forall u: Tokens :: Plain(u) <==> Begin !in u && End !in u;
  }

  // ----- Laws -----

  /** A begin marker first, an end marker and a newline last, no other markers. */
  ghost predicate IsFence(f: Tokens) {
    && |f| >= 3 && f[0] == Begin && f[|f| - 2] == End && f[|f| - 1] == NEWLINE
    && forall i :: 0 < i < |f| - 2 ==> !Marker(f[i])
  }

  lemma FencedIsFence(block: Tokens)
    requires Plain(block)
    ensures IsFence(Fenced(block))
  {
  }

  lemma FirstIs(t: Tokens, marker: Token, i: nat)
    requires i < |t| && t[i] == marker && forall j :: 0 <= j < i ==> t[j] != marker
    ensures Find(t, marker) == Some(i)
  {
  }

  /** Where the markers of a fence are found, between other texts. */
  lemma FenceFound(before: Tokens, f: Tokens, after: Tokens)
    requires IsFence(f)
    ensures var t := before + f[..|f| - 1] + after;
            && (Find(before, Begin).None? ==> Find(t, Begin) == Some(|before|))
            && (Find(before, End).None? ==> Find(t, End) == Some(|before| + |f| - 2))
  {
    var t := before + f[..|f| - 1] + after;
    assert t[|before|] == f[0] && t[|before| + |f| - 2] == f[|f| - 2];
    assert forall j :: |before| < j < |before| + |f| - 2 ==> t[j] == f[j - |before|];
    if Find(before, Begin).None? {
      FirstIs(t, Begin, |before|);
    }
    if Find(before, End).None? {
      FirstIs(t, End, |before| + |f| - 2);
    }
  }

  /** A text that is `before`, the fence and `after`, with no marker in `before`, is written to itself. */
  lemma FenceIsStable(before: Tokens, f: Tokens, after: Tokens)
    requires IsFence(f) && Find(before, Begin).None? && Find(before, End).None?
    ensures var t := before + f[..|f| - 1] + after;
            HasRegion(t) && Before(t) == before && After(t) == after && WithFence(Some(t), f) == t
  {
    FenceFound(before, f, after);
  }

  lemma NoMarkerBefore(t: Tokens)
    requires HasRegion(t)
    ensures Find(Before(t), Begin).None? && Find(Before(t), End).None?
  {
  }

  lemma NoMarkerInPlain(t: Tokens)
    requires Plain(t)
    ensures Find(t, Begin).None? && Find(t, End).None?
    ensures Find(t + Padding(t), Begin).None? && Find(t + Padding(t), End).None?
  {
  }

  lemma Appended(t: Tokens, f: Tokens)
    requires IsFence(f) && !HasRegion(t)
    ensures WithFence(Some(t), f) == t + Padding(t) + f[..|f| - 1] + [NEWLINE]
    ensures t <= WithFence(Some(t), f)
  {
    assert f == f[..|f| - 1] + [NEWLINE];
  }

  lemma OutsideInText(t: Tokens, f: Tokens)
    requires IsFence(f)
    ensures var r := WithFence(Some(t), f);
            if HasRegion(t) then HasRegion(r) && Before(r) == Before(t) && After(r) == After(t)
            else t <= r && (Plain(t) ==> HasRegion(r) && Before(r) == t + Padding(t) && After(r) == [NEWLINE])
  {
    if HasRegion(t) {
      NoMarkerBefore(t);
      FenceIsStable(Before(t), f, After(t));
    } else {
      Appended(t, f);
      if Plain(t) {
        NoMarkerInPlain(t);
        FenceIsStable(t + Padding(t), f, [NEWLINE]);
      }
    }
  }

  /** The text around the fenced region is preserved as it reads, so exactly if no carriage return is in it. Where
      there was no region, the old text as it reads is kept whole, followed by newlines and the fence. */
  lemma OutsideIsPreserved(t: Tokens, block: Tokens)
    requires Plain(block)
    ensures var r, text := Written(Some(t), block), AsRead(t);
            if HasRegion(t) then HasRegion(r) && Before(r) == AsRead(Before(t)) && After(r) == AsRead(After(t))
            else text <= r && (Plain(t) ==> HasRegion(r) && Before(r) == text + Padding(text) && After(r) == [NEWLINE])
    ensures HasRegion(t)
            ==> var r := Written(Some(t), block);
                HasRegion(r)
                && (Before(r) == Before(t) && After(r) == After(t) <==> NoReturns(Before(t)) && NoReturns(After(t)))
  {
    FencedIsFence(block);
    RegionInRead(t);
    PlainInRead(t);
    OutsideInText(AsRead(t), Fenced(block));
    if HasRegion(t) {
      ReadIsIdleIff(Before(t));
      ReadIsIdleIff(After(t));
    }
  }

  /** The first write finds a region to replace, or a text without stray markers to append to. */
  predicate Clean(file: Option<Tokens>) {
    file.None? || Plain(file.value) || HasRegion(file.value)
  }

  lemma CleanIsStable(file: Option<Tokens>, f: Tokens)
    requires IsFence(f) && Clean(file)
    ensures WithFence(Some(WithFence(file, f)), f) == WithFence(file, f)
  {
    if file.None? {
      FenceIsStable([], f, [NEWLINE]);
      assert [] + f[..|f| - 1] + [NEWLINE] == f;
    } else if HasRegion(file.value) {
      NoMarkerBefore(file.value);
      FenceIsStable(Before(file.value), f, After(file.value));
    } else {
      Appended(file.value, f);
      NoMarkerInPlain(file.value);
      FenceIsStable(file.value + Padding(file.value), f, [NEWLINE]);
    }
  }

  /** A longer text has the same first marker, if there was one. */
  lemma FindStays(t: Tokens, u: Tokens, marker: Token)
    requires t <= u && Find(t, marker).Some?
    ensures Find(u, marker) == Find(t, marker)
  {
    FirstIs(u, marker, Find(t, marker).value);
  }

  lemma FindNotBefore(t: Tokens, u: Tokens, marker: Token)
    requires t <= u && Find(t, marker).None?
    ensures Find(u, marker).Some? ==> Find(u, marker).value >= |t|
  {
  }

  /** A stray end marker makes every write append another block. */
  lemma StrayEndIsUnstable(t: Tokens, f: Tokens)
    requires IsFence(f) && Find(t, End).Some? && !HasRegion(t)
    ensures |WithFence(Some(WithFence(Some(t), f)), f)| > |WithFence(Some(t), f)|
  {
    var once := WithFence(Some(t), f);
    Appended(t, f);
    FindStays(t, once, End);
    if Find(t, Begin).Some? {
      FindStays(t, once, Begin);
    } else {
      FindNotBefore(t, once, Begin);
    }
    assert !HasRegion(once);
  }

  /** A stray begin marker makes the second write swallow the text from there on. */
  lemma StrayBeginIsUnstable(t: Tokens, f: Tokens)
    requires IsFence(f) && Find(t, End).None? && Find(t, Begin).Some?
    ensures |WithFence(Some(WithFence(Some(t), f)), f)| < |WithFence(Some(t), f)|
  {
    var once := WithFence(Some(t), f);
    Appended(t, f);
    FindStays(t, once, Begin);
    assert Find(t + Padding(t), End).None?;
    FenceFound(t + Padding(t), f, [NEWLINE]);
    assert |Before(once)| == Find(t, Begin).value && |After(once)| == 1;
  }

  /** What was written reads back as it is. */
  lemma WrittenReadsBack(file: Option<Tokens>, block: Tokens)
    requires NoReturns(block)
    ensures AsRead(Written(file, block)) == Written(file, block)
  {
    var f := Fenced(block);
    assert NoReturns(f);
    if file.Some? {
      ReadHasNoReturns(file.value);
    }
    assert NoReturns(Written(file, block));
    ReadIsIdleIff(Written(file, block));
  }

  lemma TwiceInText(text: Option<Tokens>, f: Tokens)
    requires IsFence(f)
    ensures WithFence(Some(WithFence(text, f)), f) == WithFence(text, f) <==> Clean(text)
  {
    if Clean(text) {
      CleanIsStable(text, f);
    } else if Find(text.value, End).Some? {
      StrayEndIsUnstable(text.value, f);
    } else {
      StrayBeginIsUnstable(text.value, f);
    }
  }

  /** Writing the block twice equals writing it once, for a block free of markers and carriage returns, if and only if
      there is no file, or the file has no markers, or its first begin marker comes before its first end marker. */
  lemma WritingTwiceIff(file: Option<Tokens>, block: Tokens)
    requires Plain(block) && NoReturns(block)
    ensures Written(Some(Written(file, block)), block) == Written(file, block) <==> Clean(file)
  {
    FencedIsFence(block);
    WrittenReadsBack(file, block);
    TwiceInText(Reading(file), Fenced(block));
    if file.Some? {
      RegionInRead(file.value);
      PlainInRead(file.value);
    }
  }

  // ----- The written file, spelled out -----

  /** A carriage return, with a following newline or without, reads as one newline; every other character as itself. */
  lemma ReadIs(c: Token, t: Tokens)
    ensures AsRead([]) == []
    ensures c != RETURN ==> AsRead([c] + t) == [c] + AsRead(t)
    ensures AsRead([RETURN, NEWLINE] + t) == [NEWLINE] + AsRead(t)
    ensures t == [] || t[0] != NEWLINE ==> AsRead([RETURN] + t) == [NEWLINE] + AsRead(t)
  {
    assert ([c] + t)[1..] == t && ([RETURN] + t)[1..] == t && ([RETURN, NEWLINE] + t)[2..] == t;
  }

  /** The block without the white space at its end. */
  lemma {:induction false} StrippedIs(block: Tokens)
    ensures Stripped(block) <= block
    ensures Stripped(block) != [] ==> !Space(block[|Stripped(block)| - 1])
    ensures forall i :: |Stripped(block)| <= i < |block| ==> block[i].Ch? && IsSpace(block[i].c)
  {
    if block != [] && Space(block[|block| - 1]) {
      StrippedIs(block[..|block| - 1]);
    }
  }

  /** The block stands between the two markers, without the white space at its end, each on a line of its own: in a
      new file, in place of the old region, or after the old text and an empty line. */
  lemma BlockIsThere(file: Option<Tokens>, block: Tokens)
    ensures var fence := [Begin, NEWLINE] + Stripped(block) + [NEWLINE, End];
            && (file.None? ==> Written(file, block) == fence + [NEWLINE])
            && (file.Some? ==>
                  var text := AsRead(file.value);
                  if HasRegion(text) then Written(file, block) == Before(text) + fence + After(text)
                  else if text != [] && text[|text| - 1] == NEWLINE
                  then Written(file, block) == text + [NEWLINE] + fence + [NEWLINE]
                  else Written(file, block) == text + [NEWLINE, NEWLINE] + fence + [NEWLINE])
  {
    var fence := [Begin, NEWLINE] + Stripped(block) + [NEWLINE, End];
    assert Fenced(block) == fence + [NEWLINE];
    assert Fenced(block)[..|Fenced(block)| - 1] == fence;
  }

  /** The region runs from the first begin marker to the first end marker, if that comes later. */
  lemma RegionIs(t: Tokens, i: nat, j: nat)
    requires i < |t| && j < |t| && t[i] == Begin && t[j] == End
    requires (forall k :: 0 <= k < i ==> t[k] != Begin) && (forall k :: 0 <= k < j ==> t[k] != End)
    ensures HasRegion(t) <==> i < j
    ensures i < j ==> Before(t) == t[..i] && After(t) == t[j + 1..]
  {
    FirstIs(t, Begin, i);
    FirstIs(t, End, j);
  }

  lemma NoRegionWithout(t: Tokens)
    requires Begin !in t || End !in t
    ensures !HasRegion(t)
  {
    FindIff(t, Begin);
    FindIff(t, End);
  }
}
