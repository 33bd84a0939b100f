// work_read.py: bounded reads of a pinned document, continued by cursors.
module WorkRead {
  import opened Prelude

  // SHA-256 without collisions: a hash determines the text it was computed from.
  datatype Hash = Sha(content: string)

  // What a project row says about a work's source and its conversion.
  datatype Source = Source(id: nat, hash: Hash, markdown: Option<nat>, markdownHash: Hash)

  datatype Span = Span(source: Source, start: int, end: int, quote: string, quoteHash: Hash)

  datatype Section = Section(id: nat, ordinal: nat, level: nat, start: nat, end: nat, markdownHash: Hash, source: nat)

  // A cached document as stored, and the sections that parsing its text yields.
  datatype Doc = Doc(hash: Hash, text: string, parsed: seq<Section>)

  datatype Reason =
    | SourceMissing | LineageUnavailable | NotConverted | CacheUnavailable | IntegrityError | TextMissing
    | IdentityMismatch | Withheld | AnchorInvalid

  // Everything a request for one work sees; any of it may change between requests.
  datatype World = World(
    bridge: Option<Source>, spans: map<nat, Span>, lineage: set<(nat, Hash)>, cacheReady: bool, docs: map<nat, Doc>,
    proven: set<(nat, Hash, Hash)>, sources: set<(nat, Hash)>, withheld: bool, stored: map<nat, seq<Section>>)

  datatype Request = Request(project: nat, work: nat, section: Option<nat>, subtree: bool, span: Option<nat>)

  datatype Cursor = Cursor(
    request: Request, markdown: nat, hash: Hash, source: nat, sourceHash: Hash, start: nat, end: nat, next: nat)

  datatype Response =
    | Refused
    | Unavailable(reason: Reason)
    | Page(text: string, from: nat, stop: nat, start: nat, end: nat, hash: Hash, continuation: Option<Cursor>)

  // ----- Selecting a section -----

  function Find(sections: seq<Section>, id: nat): (r: Option<nat>)
    ensures r.Some? ==> r.value < |sections| && sections[r.value].id == id
    ensures r.None? <==> forall i :: 0 <= i < |sections| ==> sections[i].id != id
  {
    if sections == [] then None
    else
      var n := |sections| - 1;
      var before := Find(sections[..n], id);
      assert forall i :: 0 <= i < n ==> sections[..n][i] == sections[i];
      if before.Some? then before else if sections[n].id == id then Some(n) else None
  }

  /** Where the subtree of `top` ends, scanning from section `i` with `end` so far. */
  function ScanEnd(sections: seq<Section>, top: Section, i: nat, end: nat): nat
    requires i <= |sections|
    decreases |sections| - i
  {
    if i == |sections| then end
    else if sections[i].ordinal <= top.ordinal then ScanEnd(sections, top, i + 1, end)
    else if sections[i].level <= top.level then end
    else ScanEnd(sections, top, i + 1, sections[i].end)
  }

  method SubtreeEnd(sections: seq<Section>, top: Section) returns (end: nat)
    ensures end == ScanEnd(sections, top, 0, top.end)
  {
    end := top.end;
    for i := 0 to |sections|
      invariant ScanEnd(sections, top, 0, top.end) == ScanEnd(sections, top, i, end)
    {
      if sections[i].ordinal <= top.ordinal {
        continue;
      }
      if sections[i].level <= top.level {
        break;
      }
      end := sections[i].end;
    }
  }

  /** The sections strictly below section `k`, up to section `j`, and no further. */
  ghost predicate Subtree(sections: seq<Section>, k: nat, j: nat) {
    && k <= j < |sections|
    && (forall m :: k < m <= j ==> sections[m].level > sections[k].level)
    && (j + 1 < |sections| ==> sections[j + 1].level <= sections[k].level)
  }

  lemma {:induction false} SkipsEarlier(sections: seq<Section>, k: nat, i: nat, end: nat)
    requires i <= k < |sections| && forall m :: 0 <= m < |sections| ==> sections[m].ordinal == m
    ensures ScanEnd(sections, sections[k], i, end) == ScanEnd(sections, sections[k], k + 1, end)
    decreases k - i
  {
    if i < k {
      SkipsEarlier(sections, k, i + 1, end);
    }
  }

  lemma {:induction false} StopsAfter(sections: seq<Section>, k: nat, j: nat, i: nat)
    requires Subtree(sections, k, j) && k < i <= j + 1 && forall m :: 0 <= m < |sections| ==> sections[m].ordinal == m
    ensures ScanEnd(sections, sections[k], i, sections[i - 1].end) == sections[j].end
    decreases j - i
  {
    if i <= j {
      StopsAfter(sections, k, j, i + 1);
    }
  }

  /** In document order the scan ends where the last section of the subtree ends. */
  lemma SubtreeEndsWithItsLast(sections: seq<Section>, k: nat, j: nat)
    requires Subtree(sections, k, j) && forall m :: 0 <= m < |sections| ==> sections[m].ordinal == m
    ensures ScanEnd(sections, sections[k], 0, sections[k].end) == sections[j].end
  {
    SkipsEarlier(sections, k, 0, sections[k].end);
    StopsAfter(sections, k, j, k + 1);
  }

  /** The stored sections, unless they do not belong to this very document; then those parsed from the text. */
  function SectionsOf(w: World, markdown: nat, doc: Doc, source: nat): seq<Section> {
    var stored := if markdown in w.stored then w.stored[markdown] else [];
    if stored != [] && forall s :: s in stored ==>
         s.markdownHash == doc.hash && s.source == source && s.start <= s.end <= |doc.text|
    then stored else doc.parsed
  }

  // ----- One request -----

  /** text[a:b]. */
  function Slice(text: string, a: nat, b: nat): string {
    var lo := if a < |text| then a else |text|;
    var hi := if b < |text| then b else |text|;
    if lo < hi then text[lo..hi] else []
  }

  predicate AnchorOk(span: Span, text: string) {
    && 0 <= span.start <= span.end <= |text|
    && text[span.start..span.end] == span.quote && Sha(span.quote) == span.quoteHash
  }

  /** The page at the cursor, or the first, of the selection. */
  function PageOf(req: Request, c: Cursor, doc: Doc, maxChars: nat): Response {
    var stop := if c.next + maxChars < c.end then c.next + maxChars else c.end;
    Page(Slice(doc.text, c.next, stop), c.next, stop, c.start, c.end, doc.hash,
         if stop == c.end then None else Some(c.(next := stop)))
  }

  datatype Selection = Selection(start: nat, end: nat)

  /** The part of the document a request selects: all of it, a section, or a section with its subtree. A section id
      that the document does not have selects nothing. */
  function Select(w: World, req: Request, markdown: nat, doc: Doc, source: nat): Option<Selection> {
    var sections := SectionsOf(w, markdown, doc, source);
    if req.section.None? then Some(Selection(0, |doc.text|))
    else
      var k := Find(sections, req.section.value);
      if k.None? then None
      else
        var top := sections[k.value];
        Some(Selection(top.start, if req.subtree && top.level > 0 then ScanEnd(sections, top, 0, top.end) else top.end))
  }

  /** The read of a document that passed every check. */
  function ReadDoc(
      w: World, req: Request, cursor: Option<Cursor>, maxChars: nat, markdown: nat, doc: Doc, source: nat,
      sourceHash: Hash):
    Response
  {
    var selection := Select(w, req, markdown, doc, source);
    if selection.None? then Refused
    else
      var start, end := selection.value.start, selection.value.end;
      var c := cursor;
      if c.Some? && !(c.value.start == start && c.value.end == end && start <= c.value.next <= end) then Refused
      else
        var next := if cursor.Some? then cursor.value.next else start;
        PageOf(req, Cursor(req, markdown, doc.hash, source, sourceHash, start, end, next), doc, maxChars)
  }

  function Read(w: World, req: Request, cursor: Option<Cursor>, maxChars: int): Response {
    if !(1 <= maxChars <= 48000) then Refused
    else if (req.section.Some? && req.span.Some?) || (req.subtree && req.section.None?) then Refused
    else if cursor.Some? && cursor.value.request != req then Refused
    else if req.span.Some? && req.span.value !in w.spans then Refused
    else
      var source := if req.span.Some? then Some(w.spans[req.span.value].source) else w.bridge;
      if source.None? && cursor.None? then Unavailable(SourceMissing)
      else
        var changed := cursor.Some? && (source.None? || source.value.id != cursor.value.source
                                        || source.value.hash != cursor.value.sourceHash);
        var markdown := if cursor.Some? then Some(cursor.value.markdown) else source.value.markdown;
        var hash := if cursor.Some? then cursor.value.hash else source.value.markdownHash;
        var id := if cursor.Some? then cursor.value.source else source.value.id;
        var fileHash := if cursor.Some? then cursor.value.sourceHash else source.value.hash;
        if changed && (cursor.value.markdown, hash) !in w.lineage then Unavailable(LineageUnavailable)
        else if markdown.None? then Unavailable(NotConverted)
        else if !w.cacheReady then Unavailable(CacheUnavailable)
        else if markdown.value !in w.docs then Unavailable(TextMissing)
        else
          var doc := w.docs[markdown.value];
          if Sha(doc.text) != doc.hash then Unavailable(IntegrityError)
          else if doc.hash != hash || (id, fileHash, doc.hash) !in w.proven || (id, fileHash) !in w.sources then
            Unavailable(IdentityMismatch)
          else if w.withheld then Unavailable(Withheld)
          else if req.span.Some? && !AnchorOk(w.spans[req.span.value], doc.text) then Unavailable(AnchorInvalid)
          else ReadDoc(w, req, cursor, maxChars, markdown.value, doc, id, fileHash)
  }

  // ----- Following continuations -----

  /** What a delivered page says: text of the document with its hash, continuing where the cursor points, and a
      continuation that pins the same document and selection, unless this was the last page. */
  lemma PageFacts(w: World, req: Request, cursor: Option<Cursor>, maxChars: int)
    requires Read(w, req, cursor, maxChars).Page?
    ensures var p := Read(w, req, cursor, maxChars);
            && p.text == Slice(p.hash.content, p.from, p.stop)
            && p.stop == (if p.from + maxChars < p.end then p.from + maxChars else p.end)
            && (cursor.None? ==> p.from == p.start)
            && (cursor.Some? ==> p.hash == cursor.value.hash && p.from == cursor.value.next
                                 && p.start == cursor.value.start && p.end == cursor.value.end && p.from <= p.end)
            && (p.continuation.None? <==> p.stop == p.end)
            && (p.continuation.Some? ==>
                  var c := p.continuation.value;
                  c.request == req && c.hash == p.hash && c.start == p.start && c.end == p.end && c.next == p.stop)
  {
  }

  /** The links of the work still lead to the source the cursor was issued for, or the project's own records tie the
      pinned document to the work. */
  predicate LineageHolds(w: World, req: Request, c: Cursor) {
    var spanned := req.span.Some? && req.span.value in w.spans;
    var source := if spanned then Some(w.spans[req.span.value].source) else w.bridge;
    || (source.Some? && source.value.id == c.source && source.value.hash == c.sourceHash)
    || (c.markdown, c.hash) in w.lineage
  }

  /** The pinned document is in the cache, unaltered, with the pinned hash and a proven, known source. */
  predicate PinnedDocument(w: World, c: Cursor) {
    && w.cacheReady && c.markdown in w.docs
    && w.docs[c.markdown].hash == c.hash == Sha(w.docs[c.markdown].text)
    && (c.source, c.sourceHash, c.hash) in w.proven && (c.source, c.sourceHash) in w.sources
  }

  /** A well-formed request and page size. */
  predicate WellFormed(w: World, req: Request, maxChars: int) {
    && 1 <= maxChars <= 48000
    && !(req.section.Some? && req.span.Some?) && (req.subtree ==> req.section.Some?)
    && (req.span.Some? ==> req.span.value in w.spans)
  }

  /** Exactly when a continuation is served with text: the request is the one it was issued for, the lineage holds,
      the pinned document is there, policy allows it, the anchor still matches and the selection has not moved. */
  lemma ContinuationServedIff(w: World, req: Request, c: Cursor, maxChars: int)
    ensures Read(w, req, Some(c), maxChars).Page?
            <==> && WellFormed(w, req, maxChars) && c.request == req
                 && LineageHolds(w, req, c) && PinnedDocument(w, c) && !w.withheld
                 && (req.span.Some? ==> AnchorOk(w.spans[req.span.value], w.docs[c.markdown].text))
                 && Select(w, req, c.markdown, w.docs[c.markdown], c.source) == Some(Selection(c.start, c.end))
                 && c.start <= c.next <= c.end
  {
  }

  /** In an unchanged world a continuation is always served, with any page size. */
  lemma ContinuationServedAgain(w: World, req: Request, cursor: Option<Cursor>, maxChars: int, next: int)
    requires 1 <= next <= 48000
    requires Read(w, req, cursor, maxChars).Page? && Read(w, req, cursor, maxChars).continuation.Some?
    ensures Read(w, req, Read(w, req, cursor, maxChars).continuation, next).Page?
  {
    PageFacts(w, req, cursor, maxChars);
  }

  // One request of a session: the state it met and the page size it asked for.
  datatype Turn = Turn(world: World, maxChars: int)

  /** The answers to a first request and to the continuations that follow it. */
  ghost predicate IsSession(turns: seq<Turn>, req: Request, pages: seq<Response>) {
    && |pages| == |turns| > 0
    && pages[0] == Read(turns[0].world, req, None, turns[0].maxChars)
    && forall i :: 1 <= i < |pages| ==> Continues(turns[i], req, pages[i - 1], pages[i])
  }

  ghost predicate Continues(turn: Turn, req: Request, previous: Response, page: Response) {
    previous.Page? && previous.continuation.Some? && page == Read(turn.world, req, previous.continuation, turn.maxChars)
  }

  /** Text up to and including page `i`. */
  function Joined(pages: seq<Response>, i: nat): string
    requires i < |pages|
  {
    (if i == 0 then [] else Joined(pages, i - 1)) + if pages[i].Page? then pages[i].text else []
  }

  lemma SliceJoin(text: string, a: nat, b: nat, c: nat)
    requires a <= b <= c
    ensures Slice(text, a, b) + Slice(text, b, c) == Slice(text, a, c)
  {
    if b <= |text| {
      assert text[a..b] + Slice(text, b, c) == Slice(text, a, c);
    }
  }

  /** What holds of page `i` of a session, relative to the document pinned by the first page. */
  ghost predicate OnTrack(pages: seq<Response>, i: nat)
    requires i < |pages| && pages[0].Page? && pages[i].Page?
  {
    var first, p := pages[0], pages[i];
    && p.hash == first.hash && p.start == first.start && p.end == first.end
    && p.text == Slice(first.hash.content, p.from, p.stop)
    && Joined(pages, i) == Slice(first.hash.content, first.start, p.stop)
    && first.start + i <= p.from
    && (p.continuation.None? <==> p.stop == p.end)
    && (i > 0 ==> p.from < p.end)
  }

  lemma {:induction false} StaysOnTrack(turns: seq<Turn>, req: Request, pages: seq<Response>, i: nat)
    requires IsSession(turns, req, pages) && i < |pages| && pages[i].Page?
    ensures pages[0].Page? && OnTrack(pages, i)
  {
    if i == 0 {
      PageFacts(turns[0].world, req, None, turns[0].maxChars);
    } else {
      assert Continues(turns[i], req, pages[i - 1], pages[i]);
      StaysOnTrack(turns, req, pages, i - 1);
      LinkFacts(turns, req, pages, i);
      var first, before, p := pages[0], pages[i - 1], pages[i];
      SliceJoin(first.hash.content, first.start, before.stop, p.stop);
    }
  }

  /** A page continues where the one before stopped, in the same document and selection. */
  lemma LinkFacts(turns: seq<Turn>, req: Request, pages: seq<Response>, i: nat)
    requires IsSession(turns, req, pages) && 1 <= i < |pages| && pages[i].Page?
    ensures pages[i - 1].Page?
    ensures var before, p := pages[i - 1], pages[i];
            && p.hash == before.hash && p.start == before.start && p.end == before.end
            && p.text == Slice(p.hash.content, p.from, p.stop)
            && p.from == before.stop && before.from < before.stop < p.end && p.from < p.stop <= p.end
            && (p.continuation.None? <==> p.stop == p.end)
  {
    assert Continues(turns[i], req, pages[i - 1], pages[i]);
    var earlier := if i == 1 then None else pages[i - 2].continuation;
    if i > 1 {
      assert Continues(turns[i - 1], req, pages[i - 2], pages[i - 1]);
    }
    PageFacts(turns[i - 1].world, req, earlier, turns[i - 1].maxChars);
    PageFacts(turns[i].world, req, pages[i - 1].continuation, turns[i].maxChars);
  }

  /** Whatever happens to the work's source links, the cache and the policy between requests, a page of a session
      shows the document pinned by the first page, or it shows no text at all. */
  lemma PinnedOrNothing(turns: seq<Turn>, req: Request, pages: seq<Response>, i: nat)
    requires IsSession(turns, req, pages) && i < |pages|
    ensures pages[i].Page?
            ==> pages[0].Page? && pages[i].hash == pages[0].hash
                && pages[i].text == Slice(pages[0].hash.content, pages[i].from, pages[i].stop)
  {
    if pages[i].Page? {
      StaysOnTrack(turns, req, pages, i);
    }
  }

  /** The pages of a session, of any sizes, join to exactly the selected slice once the last one is reached. */
  lemma PagesJoinToSelection(turns: seq<Turn>, req: Request, pages: seq<Response>)
    requires IsSession(turns, req, pages) && pages[|pages| - 1].Page? && pages[|pages| - 1].continuation.None?
    ensures pages[0].Page?
    ensures Joined(pages, |pages| - 1) == Slice(pages[0].hash.content, pages[0].start, pages[0].end)
  {
    StaysOnTrack(turns, req, pages, |pages| - 1);
  }

  /** Every continuation makes progress: a session of delivered pages is no longer than the selection. */
  lemma SessionTerminates(turns: seq<Turn>, req: Request, pages: seq<Response>)
    requires IsSession(turns, req, pages) && pages[|pages| - 1].Page?
    ensures pages[0].Page?
    ensures |pages| == 1 || pages[0].start + |pages| <= pages[0].end
  {
    StaysOnTrack(turns, req, pages, |pages| - 1);
  }

  // ----- An unchanged world -----

  /** The answers to a first request and to the continuations that follow it, one for each page size while there is
      a continuation. */
  function Follow(w: World, req: Request, sizes: seq<int>): seq<Response> {
    if sizes == [] then []
    else
      var before, size := Follow(w, req, sizes[..|sizes| - 1]), sizes[|sizes| - 1];
      if before == [] then [Read(w, req, None, size)]
      else if CanContinue(before) then before + [Read(w, req, before[|before| - 1].continuation, size)]
      else before
  }

  predicate CanContinue(pages: seq<Response>) {
    pages != [] && pages[|pages| - 1].Page? && pages[|pages| - 1].continuation.Some?
  }

  ghost predicate AllPages(pages: seq<Response>) {
    forall i :: 0 <= i < |pages| ==> pages[i].Page?
  }

  ghost predicate InBounds(sizes: seq<int>) {
    forall i :: 0 <= i < |sizes| ==> 1 <= sizes[i] <= 48000
  }

  /** The last answer came from some request in this world. */
  ghost predicate LastRead(w: World, req: Request, pages: seq<Response>) {
    pages != [] && exists cursor, size :: pages[|pages| - 1] == Read(w, req, cursor, size)
  }

  ghost function TurnsOf(w: World, sizes: seq<int>, n: nat): seq<Turn>
    requires n <= |sizes|
  {
    seq(n, i requires 0 <= i < n => Turn(w, sizes[i]))
  }

  ghost predicate Followed(w: World, req: Request, sizes: seq<int>, pages: seq<Response>) {
    && 0 < |pages| <= |sizes| && IsSession(TurnsOf(w, sizes, |pages|), req, pages)
    && (|pages| == |sizes| || !CanContinue(pages)) && LastRead(w, req, pages)
  }

  lemma FollowOne(w: World, req: Request, sizes: seq<int>)
    requires |sizes| == 1
    ensures Followed(w, req, sizes, [Read(w, req, None, sizes[0])])
  {
    assert TurnsOf(w, sizes, 1)[0] == Turn(w, sizes[0]);
  }

  lemma FollowNext(w: World, req: Request, sizes: seq<int>, size: int, pages: seq<Response>)
    requires Followed(w, req, sizes, pages)
    ensures CanContinue(pages)
            ==> Followed(w, req, sizes + [size], pages + [Read(w, req, pages[|pages| - 1].continuation, size)])
    ensures !CanContinue(pages) ==> Followed(w, req, sizes + [size], pages)
  {
    var all := sizes + [size];
    assert all[..|sizes|] == sizes;
    SameTurns(w, all, |sizes|, |pages|);
    if CanContinue(pages) {
      ExtendSession(TurnsOf(w, all, |sizes|), req, pages, Turn(w, size));
      assert TurnsOf(w, all, |all|) == TurnsOf(w, all, |sizes|) + [Turn(w, size)];
    }
  }

  /** Following continuations makes a session, which goes on with one page for each size or has reached an end. */
  lemma {:induction false} FollowIsSession(w: World, req: Request, sizes: seq<int>)
    requires sizes != []
    ensures Followed(w, req, sizes, Follow(w, req, sizes))
  {
    var n := |sizes| - 1;
    if n == 0 {
      FollowOne(w, req, sizes);
      assert Follow(w, req, sizes[..0]) == [];
    } else {
      var rest := Follow(w, req, sizes[..n]);
      assert Followed(w, req, sizes[..n], rest) by {
        FollowIsSession(w, req, sizes[..n]);
      }
      FollowNext(w, req, sizes[..n], sizes[n], rest);
      assert sizes == sizes[..n] + [sizes[n]];
    }
  }

  lemma SameTurns(w: World, sizes: seq<int>, n: nat, m: nat)
    requires m <= n <= |sizes|
    ensures TurnsOf(w, sizes[..n], m) == TurnsOf(w, sizes, m)
  {
  }

  lemma ExtendSession(turns: seq<Turn>, req: Request, pages: seq<Response>, turn: Turn)
    requires IsSession(turns, req, pages) && CanContinue(pages)
    ensures var page := Read(turn.world, req, pages[|pages| - 1].continuation, turn.maxChars);
            IsSession(turns + [turn], req, pages + [page])
  {
    var page := Read(turn.world, req, pages[|pages| - 1].continuation, turn.maxChars);
    assert Continues(turn, req, pages[|pages| - 1], page);
  }

  /** In an unchanged world every continuation is answered with a page. */
  lemma {:induction false} FollowDelivers(w: World, req: Request, sizes: seq<int>)
    requires sizes != [] && InBounds(sizes) && Read(w, req, None, sizes[0]).Page?
    ensures AllPages(Follow(w, req, sizes))
  {
    var n := |sizes| - 1;
    if n > 0 {
      var rest := Follow(w, req, sizes[..n]);
      FollowDelivers(w, req, sizes[..n]);
      FollowIsSession(w, req, sizes[..n]);
      if CanContinue(rest) {
        var cursor, size :| rest[|rest| - 1] == Read(w, req, cursor, size);
        ContinuationServedAgain(w, req, cursor, size, sizes[n]);
      }
    }
  }

  /** And following them reads everything: with as many requests as the selection has characters, or one, the last
      page is reached and the pages join to exactly the selected slice. */
  lemma FollowingReadsEverything(w: World, req: Request, sizes: seq<int>)
    requires sizes != [] && InBounds(sizes) && Read(w, req, None, sizes[0]).Page?
    requires var first := Read(w, req, None, sizes[0]);
             |sizes| >= first.end - first.start
    ensures var pages, first := Follow(w, req, sizes), Read(w, req, None, sizes[0]);
            && pages != [] && AllPages(pages) && pages[0] == first
            && pages[|pages| - 1].continuation.None?
            && Joined(pages, |pages| - 1) == Slice(first.hash.content, first.start, first.end)
  {
    var pages := Follow(w, req, sizes);
    FollowIsSession(w, req, sizes);
    FollowDelivers(w, req, sizes);
    var turns := TurnsOf(w, sizes, |pages|);
    assert turns[0] == Turn(w, sizes[0]);
    StaysOnTrack(turns, req, pages, |pages| - 1);
    var cursor, size :| pages[|pages| - 1] == Read(w, req, cursor, size);
    PageFacts(w, req, cursor, size);
    PagesJoinIfComplete(turns, req, pages);
  }

  lemma PagesJoinIfComplete(turns: seq<Turn>, req: Request, pages: seq<Response>)
    requires IsSession(turns, req, pages) && pages[|pages| - 1].Page?
    ensures pages[0].Page?
    ensures pages[|pages| - 1].continuation.None?
            ==> Joined(pages, |pages| - 1) == Slice(pages[0].hash.content, pages[0].start, pages[0].end)
  {
    StaysOnTrack(turns, req, pages, |pages| - 1);
  }

  // ----- Paging through the sections -----

  datatype SectionPage = SectionPage(items: seq<Section>, next: Option<nat>)

  function PageSections(sections: seq<Section>, offset: nat, limit: nat): SectionPage {
    var lo := if offset < |sections| then offset else |sections|;
    var hi := if offset + limit < |sections| then offset + limit else |sections|;
    SectionPage(sections[lo..hi], if offset + limit < |sections| then Some(offset + limit) else None)
  }

  // The limits of successive requests.
  datatype Limits = NoMore | Ask(limit: nat, others: Limits)

  /** The limits a request may ask for. */
  predicate InRange(limits: Limits) {
    limits.Ask? ==> 1 <= limits.limit <= 100 && InRange(limits.others)
  }

  function Requests(limits: Limits): nat {
    if limits.NoMore? then 0 else 1 + Requests(limits.others)
  }

  /** Following the next offsets from `offset`, with a limit for each page. */
  function ListSections(sections: seq<Section>, offset: nat, limits: Limits): seq<Section>
    decreases limits
  {
    if limits.NoMore? then []
    else
      var page := PageSections(sections, offset, limits.limit);
      page.items + if page.next.Some? then ListSections(sections, page.next.value, limits.others) else []
  }

  /** Where the listing stops. */
  function StopsAt(total: nat, offset: nat, limits: Limits): nat
    decreases limits
  {
    if limits.NoMore? then offset
    else if offset + limits.limit < total then StopsAt(total, offset + limits.limit, limits.others)
    else total
  }

  lemma {:induction false} StopsWithin(total: nat, offset: nat, limits: Limits)
    requires offset <= total && InRange(limits)
    ensures offset <= StopsAt(total, offset, limits) <= total
    ensures Requests(limits) >= total - offset ==> StopsAt(total, offset, limits) == total
    decreases limits
  {
    if limits.Ask? && offset + limits.limit < total {
      StopsWithin(total, offset + limits.limit, limits.others);
    }
  }

  lemma AppendSlice(sections: seq<Section>, a: nat, b: nat, c: nat)
    requires a <= b <= c <= |sections|
    ensures sections[a..b] + sections[b..c] == sections[a..c]
  {
  }

  /** With any limits the pages list the sections once each, in order, from the offset up to where they stop, which
      is the end if there were enough requests. */
  lemma {:induction false} SectionsListedOnce(sections: seq<Section>, offset: nat, limits: Limits)
    requires offset <= |sections| && InRange(limits)
    ensures offset <= StopsAt(|sections|, offset, limits) <= |sections|
    ensures ListSections(sections, offset, limits) == sections[offset..StopsAt(|sections|, offset, limits)]
    ensures Requests(limits) >= |sections| - offset ==> StopsAt(|sections|, offset, limits) == |sections|
    decreases limits
  {
    StopsWithin(|sections|, offset, limits);
    if limits.Ask? && offset + limits.limit < |sections| {
      var next := offset + limits.limit;
      SectionsListedOnce(sections, next, limits.others);
      ListOneMore(sections, offset, limits);
    } else {
      ListTheLast(sections, offset, limits);
    }
  }

  lemma ListOneMore(sections: seq<Section>, offset: nat, limits: Limits)
    requires limits.Ask? && offset + limits.limit < |sections|
    requires var next := offset + limits.limit;
             var stop := StopsAt(|sections|, next, limits.others);
             next <= stop <= |sections| && ListSections(sections, next, limits.others) == sections[next..stop]
    ensures ListSections(sections, offset, limits) == sections[offset..StopsAt(|sections|, offset, limits)]
  {
    var next := offset + limits.limit;
    AppendSlice(sections, offset, next, StopsAt(|sections|, next, limits.others));
  }

  lemma ListTheLast(sections: seq<Section>, offset: nat, limits: Limits)
    requires offset <= |sections| && (limits.Ask? ==> offset + limits.limit >= |sections|)
    ensures ListSections(sections, offset, limits) == sections[offset..StopsAt(|sections|, offset, limits)]
  {
  }
}
