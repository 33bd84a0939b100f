// One read told by what the tables hold: when text is served, which part of the document, and why it is not.
module ReadLaws {
  import opened Prelude
  import opened WorkRead

  // ----- Which text a page shows -----

  /** text[a:b] is that stretch of the text, cut off at its end. */
  lemma SliceIs(text: string, a: nat, b: nat)
    ensures a <= b <= |text| ==> Slice(text, a, b) == text[a..b]
    ensures a <= |text| < b ==> Slice(text, a, b) == text[a..]
    ensures b <= a || |text| <= a ==> Slice(text, a, b) == ""
  {
  }

  /** The stored sections are used if there are any and each is one of this very document; else those parsed from its
      text. */
  lemma SectionsAre(w: World, markdown: nat, doc: Doc, source: nat)
    ensures var usable := && markdown in w.stored && w.stored[markdown] != []
                          && forall i :: 0 <= i < |w.stored[markdown]| ==>
                               && w.stored[markdown][i].markdownHash == doc.hash
                               && w.stored[markdown][i].source == source
                               && w.stored[markdown][i].start <= w.stored[markdown][i].end <= |doc.text|;
            SectionsOf(w, markdown, doc, source) == if usable then w.stored[markdown] else doc.parsed
  {
  }

  /** A request without a section selects the whole document, a request for one selects the first section with that
      id, and an unknown one selects nothing. */
  lemma SelectionIs(w: World, req: Request, markdown: nat, doc: Doc, source: nat, k: nat)
    ensures req.section.None? ==> Select(w, req, markdown, doc, source) == Some(Selection(0, |doc.text|))
    ensures var sections := SectionsOf(w, markdown, doc, source);
            req.section.Some? && (forall i :: 0 <= i < |sections| ==> sections[i].id != req.section.value)
            ==> Select(w, req, markdown, doc, source) == None
    ensures var sections := SectionsOf(w, markdown, doc, source);
            && req.section.Some? && k < |sections| && sections[k].id == req.section.value
            && (forall i :: 0 <= i < k ==> sections[i].id != req.section.value)
            ==> var selected := Select(w, req, markdown, doc, source);
                && selected.Some? && selected.value.start == sections[k].start
                && (!req.subtree || sections[k].level == 0 ==> selected.value.end == sections[k].end)
  {
    var sections := SectionsOf(w, markdown, doc, source);
    if req.section.Some? && k < |sections| && sections[k].id == req.section.value {
      FindIsFirst(sections, req.section.value, k);
    }
  }

  lemma {:induction false} FindIsFirst(sections: seq<Section>, id: nat, k: nat)
    requires k < |sections| && sections[k].id == id
    ensures (forall i :: 0 <= i < k ==> sections[i].id != id) ==> Find(sections, id) == Some(k)
  {
    if forall i :: 0 <= i < k ==> sections[i].id != id {
      if k < |sections| - 1 {
        var front := sections[..|sections| - 1];
        assert forall i :: 0 <= i < |front| ==> front[i] == sections[i];
        FindIsFirst(front, id, k);
      }
    }
  }

  /** With its subtree a section reaches to the end of the last section of the run of deeper ones that follows it. */
  lemma SubtreeSelectionIs(w: World, req: Request, markdown: nat, doc: Doc, source: nat, k: nat, j: nat)
    requires var sections := SectionsOf(w, markdown, doc, source);
             && k <= j < |sections| && req.section == Some(sections[k].id) && req.subtree && sections[k].level > 0
             && (forall i :: 0 <= i < k ==> sections[i].id != sections[k].id)
             && (forall m :: 0 <= m < |sections| ==> sections[m].ordinal == m)
             && (forall m :: k < m <= j ==> sections[m].level > sections[k].level)
             && (j + 1 < |sections| ==> sections[j + 1].level <= sections[k].level)
    ensures var sections := SectionsOf(w, markdown, doc, source);
            Select(w, req, markdown, doc, source) == Some(Selection(sections[k].start, sections[j].end))
  {
    var sections := SectionsOf(w, markdown, doc, source);
    FindIsFirst(sections, sections[k].id, k);
    SubtreeEndsWithItsLast(sections, k, j);
  }

  // ----- When the first page is served -----

  /** The source a first request reads: that of its span, or the one linked to the work. */
  function SourceOf(w: World, req: Request): Option<Source> {
    if req.span.None? then w.bridge
    else if req.span.value in w.spans then Some(w.spans[req.span.value].source)
    else None
  }

  /** The converted text of that source is in the cache, unaltered, under the recorded hash, and proven to be its. */
  ghost predicate Readable(w: World, s: Source) {
    && s.markdown.Some? && w.cacheReady && s.markdown.value in w.docs
    && w.docs[s.markdown.value].hash == s.markdownHash == Sha(w.docs[s.markdown.value].text)
    && (s.id, s.hash, s.markdownHash) in w.proven && (s.id, s.hash) in w.sources
  }

  /** The quote of the span is where the span says, and has the hash it says. */
  ghost predicate Anchored(w: World, req: Request, text: string) {
    req.span.Some? && req.span.value in w.spans ==>
      var span := w.spans[req.span.value];
      && 0 <= span.start <= span.end <= |text| && text[span.start..span.end] == span.quote
      && span.quoteHash == Sha(span.quote)
  }

  /** A first page is served exactly if the request is sound, its source is there and readable, policy does not
      withhold it, the anchor holds and the section exists; it shows the selection from its start. */
  lemma FirstPageIff(w: World, req: Request, maxChars: int)
    ensures Read(w, req, None, maxChars).Page?
            <==> && 1 <= maxChars <= 48000
                 && !(req.section.Some? && req.span.Some?) && !(req.subtree && req.section.None?)
                 && SourceOf(w, req).Some? && Readable(w, SourceOf(w, req).value) && !w.withheld
                 && Anchored(w, req, w.docs[SourceOf(w, req).value.markdown.value].text)
                 && var s := SourceOf(w, req).value;
                    Select(w, req, s.markdown.value, w.docs[s.markdown.value], s.id).Some?
    ensures Read(w, req, None, maxChars).Page?
            ==> var s := SourceOf(w, req).value;
                var doc := w.docs[s.markdown.value];
                var selected := Select(w, req, s.markdown.value, doc, s.id).value;
                var p := Read(w, req, None, maxChars);
                && p.start == p.from == selected.start && p.end == selected.end && p.hash == s.markdownHash
                && p.stop == (if p.from + maxChars < p.end then p.from + maxChars else p.end)
                && p.text == Slice(doc.text, p.from, p.stop)
                && (p.continuation
                    == if p.stop == p.end then None
                       else Some(Cursor(req, s.markdown.value, doc.hash, s.id, s.hash, p.start, p.end, p.stop)))
  {
  }

  /** Without a cursor, why there is no text: the first of the obstacles in this order. */
  lemma ReasonIs(w: World, req: Request, maxChars: int)
    requires 1 <= maxChars <= 48000
    requires !(req.section.Some? && req.span.Some?) && !(req.subtree && req.section.None?)
    requires req.span.Some? ==> req.span.value in w.spans
    ensures var r := Read(w, req, None, maxChars);
            var s := SourceOf(w, req);
            if s.None? then r == Unavailable(SourceMissing)
            else if s.value.markdown.None? then r == Unavailable(NotConverted)
            else if !w.cacheReady then r == Unavailable(CacheUnavailable)
            else if s.value.markdown.value !in w.docs then r == Unavailable(TextMissing)
            else
              var doc := w.docs[s.value.markdown.value];
              if Sha(doc.text) != doc.hash then r == Unavailable(IntegrityError)
              else if !Readable(w, s.value) then r == Unavailable(IdentityMismatch)
              else if w.withheld then r == Unavailable(Withheld)
              else if !Anchored(w, req, doc.text) then r == Unavailable(AnchorInvalid)
              else if Select(w, req, s.value.markdown.value, doc, s.value.id).None? then r == Refused
              else r.Page?
  {
  }

  /** With a cursor, why there is no text: the source changed and the pinned text is not in its lineage, or the first
      of the same obstacles for the pinned text. */
  lemma ContinuationReasonIs(w: World, c: Cursor, maxChars: int)
    requires 1 <= maxChars <= 48000
    requires !(c.request.section.Some? && c.request.span.Some?) && !(c.request.subtree && c.request.section.None?)
    requires c.request.span.Some? ==> c.request.span.value in w.spans
    ensures var r := Read(w, c.request, Some(c), maxChars);
            var s := SourceOf(w, c.request);
            var pinned := s.Some? && s.value.id == c.source && s.value.hash == c.sourceHash;
            if !pinned && (c.markdown, c.hash) !in w.lineage then r == Unavailable(LineageUnavailable)
            else if !w.cacheReady then r == Unavailable(CacheUnavailable)
            else if c.markdown !in w.docs then r == Unavailable(TextMissing)
            else
              var doc := w.docs[c.markdown];
              if Sha(doc.text) != doc.hash then r == Unavailable(IntegrityError)
              else if doc.hash != c.hash || (c.source, c.sourceHash, c.hash) !in w.proven
                      || (c.source, c.sourceHash) !in w.sources then r == Unavailable(IdentityMismatch)
              else if w.withheld then r == Unavailable(Withheld)
              else if !Anchored(w, c.request, doc.text) then r == Unavailable(AnchorInvalid)
              else r.Page? || r == Refused
  {
  }

  /** A page of sections starts at the offset and has at most the limit; unless it is the last it names the next
      offset. */
  lemma SectionPageIs(sections: seq<Section>, offset: nat, limit: nat)
    ensures offset + limit < |sections|
            ==> PageSections(sections, offset, limit)
                == SectionPage(sections[offset..offset + limit], Some(offset + limit))
    ensures offset <= |sections| <= offset + limit
            ==> PageSections(sections, offset, limit) == SectionPage(sections[offset..], None)
    ensures |sections| < offset ==> PageSections(sections, offset, limit) == SectionPage([], None)
  {
  }
}
