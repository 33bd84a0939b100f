// The conversion call told by its arguments and the rows alone: when it refuses, when it reuses, what it records.
module ConversionLaws {
  import opened Prelude
  import opened Access
  import opened ContentCache

  // ----- Access classes -----

  /** The classes from the most to the least restrictive, and reconciling two of them. */
  lemma ClassesAreOrdered(a: AccessClass, b: AccessClass)
    ensures Rank(UserSuppliedPrivate) > Rank(Unknown) > Rank(LicensedFuture) > Rank(MetadataOnly) > Rank(OpenAccess)
    ensures Stricter(a, b) == if Rank(a) >= Rank(b) then a else b
  {
  }

  /** A file that was fetched openly comes in with the class asked for, every other file is private. */
  lemma IncomingIs(requested: AccessClass, m: Acquisition)
    ensures m == OpenAccessFetch ==> Incoming(requested, m) == requested
    ensures m != OpenAccessFetch ==> Incoming(requested, m) == UserSuppliedPrivate
  {
  }

  /** An ingest adds the bytes under their hash, or reconciles the class of the row there; nothing else changes. */
  lemma IngestIs(s: State, b: Bytes, fileType: FileType, incoming: AccessClass, h: Digest)
    ensures var s' := Ingested(s, b, fileType, incoming);
            && s'.runs == s.runs && s'.documents == s.documents && s'.blobs == s.blobs
            && (h in s'.sources <==> h in s.sources || h == Sha256(FileBytes(b)))
            && (h in s.sources && h != Sha256(FileBytes(b)) ==> s'.sources[h] == s.sources[h])
    ensures var s', own := Ingested(s, b, fileType, incoming), Sha256(FileBytes(b));
            s'.sources[own]
            == if own in s.sources then s.sources[own].(access := Stricter(s.sources[own].access, incoming))
               else Source(b, fileType, incoming)
  {
  }

  // ----- Refusals -----

  /** Private text never goes to a service outside the machine without leave: the exact condition of each refusal.
      A refusal before the backend is called mints no run and changes nothing. */
  lemma RefusedIff(
      w: World, s: State, source: Digest, version: nat, cfg: MarkerConfig, force: bool, allowExternal: bool)
    ensures var r := Convert(w, s, source, version, cfg, force, allowExternal).1;
            && (r == Refused(UnknownSource) <==> source !in s.sources)
            && (r == Refused(HtmlDeferred) <==> source in s.sources && s.sources[source].fileType == Html)
            && (r == Refused(ExternalLlmRefused)
                <==> && source in s.sources && s.sources[source].fileType == Pdf
                     && s.sources[source].access == UserSuppliedPrivate
                     && cfg.useLlm && (cfg.llmService.None? || cfg.llmService.value.ExternalService?)
                     && !allowExternal)
    ensures var (s', r) := Convert(w, s, source, version, cfg, force, allowExternal);
            r == Refused(UnknownSource) || r == Refused(HtmlDeferred) || r == Refused(ExternalLlmRefused) ==> s' == s
  {
  }

  /** The call may reach the backend: the source is a known PDF, and its text may go where the model is. */
  ghost predicate MayConvert(s: State, source: Digest, cfg: MarkerConfig, allowExternal: bool) {
    && source in s.sources && s.sources[source].fileType == Pdf
    && (|| s.sources[source].access != UserSuppliedPrivate || allowExternal || !cfg.useLlm
        || (cfg.llmService.Some? && cfg.llmService.value.LocalService?))
  }

  lemma GateOpensIff(s: State, source: Digest, cfg: MarkerConfig, allowExternal: bool)
    ensures Gate(s, source, cfg, allowExternal).None? <==> MayConvert(s, source, cfg, allowExternal)
  {
  }

  // ----- Reuse -----

  /** Run `i` is a success of that source under that fingerprint, and its markdown row is there. */
  ghost predicate RecordedAt(
      runs: seq<Run>, documents: map<Digest, Document>, source: Digest, fingerprint: Digest, i: int)
  {
    && 0 <= i < |runs| && runs[i].source == source && runs[i].fingerprint == fingerprint
    && runs[i].status == Success && runs[i].markdown.Some? && runs[i].markdown.value in documents
  }

  ghost predicate NewestAt(
      runs: seq<Run>, documents: map<Digest, Document>, source: Digest, fingerprint: Digest, i: int)
  {
    && RecordedAt(runs, documents, source, fingerprint, i)
    && forall j :: i < j < |runs| ==> !RecordedAt(runs, documents, source, fingerprint, j)
  }

  /** The lookup finds the newest one, if there is any. */
  lemma {:induction false} HitIsNewest(
      runs: seq<Run>, documents: map<Digest, Document>, source: Digest, fingerprint: Digest)
    returns (i: int)
    ensures var hit := Hit(runs, documents, source, fingerprint);
            if hit.Some? then NewestAt(runs, documents, source, fingerprint, i) && runs[i].markdown == hit
            else forall j :: !RecordedAt(runs, documents, source, fingerprint, j)
  {
    i := -1;
    if runs != [] {
      var n := |runs| - 1;
      var before := runs[..n];
      if RecordedAt(runs, documents, source, fingerprint, n) {
        i := n;
      } else {
        i := HitIsNewest(before, documents, source, fingerprint);
        assert forall j :: 0 <= j < n ==> before[j] == runs[j];
        assert forall j :: j != n ==> (RecordedAt(runs, documents, source, fingerprint, j)
                                       <==> RecordedAt(before, documents, source, fingerprint, j));
      }
    }
  }

  /** An unforced call that may convert is answered from the newest recorded success and changes nothing; without one
      it is a forced call. */
  lemma ReusedIff(
      w: World, s: State, source: Digest, version: nat, cfg: MarkerConfig, allowExternal: bool)
    requires MayConvert(s, source, cfg, allowExternal)
    ensures var (s', r) := Convert(w, s, source, version, cfg, false, allowExternal);
            var fingerprint := Sha256(Identity(version, cfg));
            if exists i :: RecordedAt(s.runs, s.documents, source, fingerprint, i)
            then s' == s && exists i :: NewestAt(s.runs, s.documents, source, fingerprint, i) &&
                                        r == Converted(s.runs[i].markdown.value)
            else (s', r) == Convert(w, s, source, version, cfg, true, allowExternal)
  {
    var i := HitIsNewest(s.runs, s.documents, source, Sha256(Identity(version, cfg)));
  }

  // ----- A conversion by the backend -----

  /** A forced call runs the backend on the source's bytes: valid text is recorded as a success and stored, anything
      else as a failure. */
  lemma ConvertedAfresh(
      w: World, s: State, source: Digest, version: nat, cfg: MarkerConfig, allowExternal: bool)
    requires MayConvert(s, source, cfg, allowExternal)
    ensures var (s', r) := Convert(w, s, source, version, cfg, true, allowExternal);
            var text := w.convert(s.sources[source].bytes, version, cfg);
            var own := Run(source, Sha256(Identity(version, cfg)), Failed, None);
            && s'.sources == s.sources
            && if text.None? || !w.valid(text.value)
               then r == Refused(ConversionFailed) && s' == s.(runs := s.runs + [own])
               else
                 var h := Sha256(Markdown(text.value));
                 && r == Converted(h)
                 && s'.runs == s.runs + [own.(status := Success, markdown := Some(h))]
                 && s'.blobs == s.blobs[h := text.value]
                 && s'.documents == DocumentsAfter(s, source, |s.runs|, h)
  {
  }

  /** The shared row of a text: a new one, or the old one unless this source is strictly more restrictive. */
  ghost function DocumentsAfter(s: State, source: Digest, run: nat, h: Digest): map<Digest, Document>
    requires source in s.sources
  {
    if h in s.documents && s.documents[h].source in s.sources &&
       Rank(s.sources[source].access) <= Rank(s.sources[s.documents[h].source].access)
    then s.documents
    else s.documents[h := Document(source, run)]
  }

  /** An import records a success under an identity of its own text. */
  lemma ImportedIs(s: State, source: Digest, text: Text)
    ensures source !in s.sources ==> Imported(s, source, text) == (s, Refused(UnknownSource))
    ensures source in s.sources
            ==> var h := Sha256(Markdown(text));
                var (s', r) := Imported(s, source, text);
                && r == Converted(h) && s'.sources == s.sources
                && s'.runs == s.runs + [Run(source, Sha256(ExternalImport(h)), Success, Some(h))]
                && s'.blobs == s.blobs[h := text] && s'.documents == DocumentsAfter(s, source, |s.runs|, h)
  {
  }
}
