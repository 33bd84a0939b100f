// The two promises of the cache: it agrees with converting afresh, and it never loosens access.
module CacheLaws {
  import opened Prelude
  import opened Access
  import opened ContentCache
  import opened CacheHistory

  // ----- Agreement with a fresh conversion -----

  /** Some run of this source and fingerprint succeeded. */
  ghost predicate HasSuccess(s: State, source: Digest, fingerprint: Digest) {
    exists r :: r in s.runs && r.source == source && r.fingerprint == fingerprint && r.status == Success
  }

  lemma {:induction false} HitIsRecorded(
      runs: seq<Run>, documents: map<Digest, Document>, source: Digest, fingerprint: Digest)
    ensures var hit := Hit(runs, documents, source, fingerprint);
            && (hit.Some? ==> exists r :: r in runs && IsHit(r, source, fingerprint) && r.markdown == hit)
            && (hit.None? ==> forall r :: r in runs && IsHit(r, source, fingerprint) ==> r.markdown.value !in documents)
  {
    if runs != [] {
      HitIsRecorded(runs[..|runs| - 1], documents, source, fingerprint);
      assert forall r :: r in runs <==> r in runs[..|runs| - 1] || r == runs[|runs| - 1];
    }
  }

  /** A lookup hits exactly when a success is recorded, and then gives what the backend gives. */
  lemma HitIff(w: World, s: State, source: Digest, version: nat, cfg: MarkerConfig)
    requires Inv(w, s)
    ensures var fp := Fingerprint(version, cfg);
            var hit := Hit(s.runs, s.documents, source, fp);
            && (hit.Some? <==> HasSuccess(s, source, fp))
            && (hit.Some? ==>
                  && source in s.sources
                  && var text := w.convert(s.sources[source].bytes, version, cfg);
                     text.Some? && w.valid(text.value) && hit.value == TextHash(text.value))
  {
    var fp := Fingerprint(version, cfg);
    HitIsRecorded(s.runs, s.documents, source, fp);
    forall r | r in s.runs && r.source == source && r.fingerprint == fp && r.status == Success
      ensures IsHit(r, source, fp) && r.markdown.value in s.documents
    {
      assert RunOk(w, s, r);
    }
    forall r | r in s.runs && IsHit(r, source, fp)
      ensures RunOk(w, s, r)
    {
    }
  }

  /** Over every history an unforced conversion answers exactly what a forced one would: the same hash or
      the same refusal. */
  lemma CacheAgreesWithFresh(
      w: World, ops: seq<Op>, source: Digest, version: nat, cfg: MarkerConfig, allowExternal: bool)
    ensures Convert(w, After(w, ops), source, version, cfg, false, allowExternal).1
         == Convert(w, After(w, ops), source, version, cfg, true, allowExternal).1
  {
    var s := After(w, ops);
    HistoryKeepsInvariant(w, ops);
    HitIff(w, s, source, version, cfg);
  }

  /** Once a success is recorded an unforced conversion mints no run (so calls no backend) and changes nothing. */
  lemma RecordedSuccessIsReused(
      w: World, ops: seq<Op>, source: Digest, version: nat, cfg: MarkerConfig, allowExternal: bool)
    requires HasSuccess(After(w, ops), source, Fingerprint(version, cfg))
    ensures Convert(w, After(w, ops), source, version, cfg, false, allowExternal).0 == After(w, ops)
  {
    HistoryKeepsInvariant(w, ops);
    HitIff(w, After(w, ops), source, version, cfg);
  }

  /** A conversion that went through leaves a recorded success. */
  lemma ConversionIsRecorded(
      w: World, s: State, source: Digest, version: nat, cfg: MarkerConfig, force: bool, allowExternal: bool)
    requires Inv(w, s) && Convert(w, s, source, version, cfg, force, allowExternal).1.Converted?
    ensures HasSuccess(Convert(w, s, source, version, cfg, force, allowExternal).0, source, Fingerprint(version, cfg))
  {
    HitIff(w, s, source, version, cfg);
    var hit := Hit(s.runs, s.documents, source, Fingerprint(version, cfg));
    if force || hit.None? {
      FreshIsSucceeded(w, s, source, version, cfg);
      var s' := Fresh(w, s, source, version, cfg).0;
      assert s'.runs[|s.runs|] in s'.runs;
    }
  }

  lemma StepKeepsSuccess(w: World, s: State, op: Op, source: Digest, fingerprint: Digest)
    requires HasSuccess(s, source, fingerprint)
    ensures HasSuccess(Step(w, s, op), source, fingerprint)
  {
    var r :| r in s.runs && r.source == source && r.fingerprint == fingerprint && r.status == Success;
    var i :| 0 <= i < |s.runs| && s.runs[i] == r;
    var s' := Step(w, s, op);
    assert |s'.runs| >= |s.runs| && s'.runs[i] == r;
    assert r in s'.runs;
  }

  /** A recorded success stays recorded whatever happens later, so the backend is never called again for it. */
  lemma {:induction false} SuccessIsForever(w: World, ops: seq<Op>, later: seq<Op>, source: Digest, fingerprint: Digest)
    requires HasSuccess(After(w, ops), source, fingerprint)
    ensures HasSuccess(After(w, ops + later), source, fingerprint)
  {
    if later == [] {
      assert ops + later == ops;
    } else {
      var n := |later| - 1;
      SuccessIsForever(w, ops, later[..n], source, fingerprint);
      assert (ops + later)[..|ops + later| - 1] == ops + later[..n];
      StepKeepsSuccess(w, After(w, ops + later[..n]), later[n], source, fingerprint);
    }
  }

  // ----- Access never loosens -----

  /** The class read through a markdown row; private when the walk cannot resolve. */
  function Effective(s: State, h: Digest): AccessClass {
    if h in s.documents && s.documents[h].source in s.sources then s.sources[s.documents[h].source].access
    else UserSuppliedPrivate
  }

  /** The strictest class any ingest of these bytes came in with. */
  function StrictestIngested(ops: seq<Op>, b: Bytes): Option<AccessClass> {
    if ops == [] then None
    else
      var before := StrictestIngested(ops[..|ops| - 1], b);
      match ops[|ops| - 1]
      case Ingest(b', _, requested, acquisition) =>
        if b' != b then before
        else if before.None? then Some(Incoming(requested, acquisition))
        else Some(Stricter(before.value, Incoming(requested, acquisition)))
      case _ => before
  }

  /** Operation `i` ingests these bytes and comes in with this class. */
  ghost predicate ComesIn(ops: seq<Op>, i: int, b: Bytes, incoming: AccessClass) {
    0 <= i < |ops| && ops[i].Ingest? && ops[i].bytes == b && incoming == Incoming(ops[i].requested, ops[i].acquisition)
  }

  /** That class is the one some ingest of the bytes came in with, and no ingest of them came in with a more
      restrictive one; there is none exactly if the bytes were never ingested. */
  lemma {:induction false} StrictestIsAnUpperBound(ops: seq<Op>, b: Bytes)
    ensures var strictest := StrictestIngested(ops, b);
            && (strictest.Some? ==> exists i :: ComesIn(ops, i, b, strictest.value))
            && (forall i, incoming :: ComesIn(ops, i, b, incoming)
                  ==> strictest.Some? && Rank(incoming) <= Rank(strictest.value))
  {
    if ops != [] {
      var n := |ops| - 1;
      var before, strictest := StrictestIngested(ops[..n], b), StrictestIngested(ops, b);
      StrictestIsAnUpperBound(ops[..n], b);
      forall i, incoming | ComesIn(ops, i, b, incoming)
        ensures strictest.Some? && Rank(incoming) <= Rank(strictest.value)
      {
        assert i < n ==> ComesIn(ops[..n], i, b, incoming);
      }
      if strictest.Some? {
        if before == strictest {
          var i :| ComesIn(ops[..n], i, b, before.value);
          assert ComesIn(ops, i, b, before.value);
        } else {
          assert ComesIn(ops, n, b, strictest.value);
        }
      }
    }
  }

  lemma OtherOpsKeepSources(w: World, s: State, op: Op)
    requires !op.Ingest?
    ensures Step(w, s, op).sources == s.sources
  {
  }

  /** A source's class is the most restrictive of all the classes its bytes were ever ingested with. */
  lemma {:induction false} SourceClassIsStrictestIngested(w: World, ops: seq<Op>, b: Bytes)
    ensures var s := After(w, ops);
            && (FileHash(b) in s.sources <==> StrictestIngested(ops, b).Some?)
            && (FileHash(b) in s.sources ==> s.sources[FileHash(b)].access == StrictestIngested(ops, b).value)
  {
    if ops != [] {
      var n := |ops| - 1;
      SourceClassIsStrictestIngested(w, ops[..n], b);
      if !ops[n].Ingest? {
        OtherOpsKeepSources(w, After(w, ops[..n]), ops[n]);
      }
    }
  }

  lemma StepTightensSources(w: World, s: State, op: Op, h: Digest)
    requires h in s.sources
    ensures h in Step(w, s, op).sources && Rank(s.sources[h].access) <= Rank(Step(w, s, op).sources[h].access)
  {
    if !op.Ingest? {
      OtherOpsKeepSources(w, s, op);
    }
  }

  /** The state after one more operation. */
  lemma AfterNext(w: World, ops: seq<Op>, later: seq<Op>)
    requires later != []
    ensures var before := After(w, ops + later[..|later| - 1]);
            After(w, ops + later) == Step(w, before, later[|later| - 1])
  {
    assert (ops + later)[..|ops + later| - 1] == ops + later[..|later| - 1];
  }

  /** No history makes a source's class less restrictive. */
  lemma {:induction false} SourcesNeverLoosen(w: World, ops: seq<Op>, later: seq<Op>, h: Digest)
    requires h in After(w, ops).sources
    ensures h in After(w, ops + later).sources
    ensures Rank(After(w, ops).sources[h].access) <= Rank(After(w, ops + later).sources[h].access)
  {
    if later == [] {
      assert ops + later == ops;
    } else {
      var n := |later| - 1;
      SourcesNeverLoosen(w, ops, later[..n], h);
      AfterNext(w, ops, later);
      StepTightensSources(w, After(w, ops + later[..n]), later[n], h);
    }
  }

  /** After a store the row is at least as restrictive as the storing source, and as it was before. */
  lemma StoreTightens(s: State, source: Digest, run: nat, text: Text, h: Digest)
    requires source in s.sources
    requires forall d :: d in s.documents ==> s.documents[d].source in s.sources
    ensures var s' := Stored(s, source, s.sources[source].access, run, text);
            && TextHash(text) in s'.documents
            && Rank(s.sources[source].access) <= Rank(Effective(s', TextHash(text)))
            && (h in s.documents ==> h in s'.documents && Rank(Effective(s, h)) <= Rank(Effective(s', h)))
  {
  }

  lemma IngestTightensDocuments(s: State, b: Bytes, fileType: FileType, incoming: AccessClass, h: Digest)
    requires h in s.documents && s.documents[h].source in s.sources
    ensures Rank(Effective(s, h)) <= Rank(Effective(Ingested(s, b, fileType, incoming), h))
  {
  }

  lemma FreshTightensDocuments(w: World, s: State, source: Digest, version: nat, cfg: MarkerConfig, h: Digest)
    requires source in s.sources && h in s.documents
    requires forall d :: d in s.documents ==> s.documents[d].source in s.sources
    ensures var s' := Fresh(w, s, source, version, cfg).0;
            h in s'.documents && Rank(Effective(s, h)) <= Rank(Effective(s', h))
  {
    var text := w.convert(s.sources[source].bytes, version, cfg);
    if text.Some? {
      StoreTightens(Minted(s, source, Fingerprint(version, cfg)), source, |s.runs|, text.value, h);
    }
  }

  lemma ImportTightensDocuments(s: State, source: Digest, text: Text, h: Digest)
    requires source in s.sources && h in s.documents
    requires forall d :: d in s.documents ==> s.documents[d].source in s.sources
    ensures var s' := Imported(s, source, text).0;
            h in s'.documents && Rank(Effective(s, h)) <= Rank(Effective(s', h))
  {
    var run := Run(source, Sha256(ExternalImport(TextHash(text))), Success, Some(TextHash(text)));
    StoreTightens(s.(runs := s.runs + [run]), source, |s.runs|, text, h);
  }

  /** No operation ever makes the class read through an existing markdown row less restrictive. */
  lemma StepTightensDocuments(w: World, s: State, op: Op, h: Digest)
    requires Inv(w, s) && h in s.documents
    ensures h in Step(w, s, op).documents && Rank(Effective(s, h)) <= Rank(Effective(Step(w, s, op), h))
  {
    assert forall d :: d in s.documents ==> s.documents[d].source in s.sources by {
      assert forall d :: d in s.documents ==> DocumentOk(s, d);
    }
    match op
    case Ingest(b, fileType, requested, acquisition) =>
      IngestTightensDocuments(s, b, fileType, Incoming(requested, acquisition), h);
    case DoConvert(source, version, cfg, force, allowExternal) =>
      if source in s.sources {
        FreshTightensDocuments(w, s, source, version, cfg, h);
      }
    case DoImport(source, text) =>
      if source in s.sources {
        ImportTightensDocuments(s, source, text, h);
      }
    case Crash(_, _, _, _) =>
  }

  lemma {:induction false} DocumentsNeverLoosen(w: World, ops: seq<Op>, later: seq<Op>, h: Digest)
    requires h in After(w, ops).documents
    ensures h in After(w, ops + later).documents
    ensures Rank(Effective(After(w, ops), h)) <= Rank(Effective(After(w, ops + later), h))
  {
    if later == [] {
      assert ops + later == ops;
    } else {
      var n := |later| - 1;
      DocumentsNeverLoosen(w, ops, later[..n], h);
      AfterNext(w, ops, later);
      HistoryKeepsInvariant(w, ops + later[..n]);
      StepTightensDocuments(w, After(w, ops + later[..n]), later[n], h);
    }
  }

  // ----- Which producers a shared row covers -----

  /** Some successful run of `source` produced the markdown `h`. */
  ghost predicate Produced(s: State, source: Digest, h: Digest) {
    exists r :: r in s.runs && r.source == source && r.status == Success && r.markdown == Some(h)
  }

  /** The row is at least as restrictive as every source that produced this markdown. */
  ghost predicate Covers(s: State, h: Digest) {
    forall source :: source in s.sources && Produced(s, source, h) ==>
      Rank(s.sources[source].access) <= Rank(Effective(s, h))
  }

  /** Every store, by conversion or import, keeps every row covering. */
  lemma SuccessKeepsCoverage(w: World, s: State, source: Digest, fingerprint: Digest, text: Text, h: Digest)
    requires Inv(w, s) && source in s.sources && (h in s.documents ==> Covers(s, h))
    ensures Covers(Succeeded(s, source, fingerprint, text), h)
  {
    var s' := Succeeded(s, source, fingerprint, text);
    var run := Run(source, fingerprint, Success, Some(TextHash(text)));
    assert forall d :: d in s.documents ==> DocumentOk(s, d);
    StoreTightens(s.(runs := s.runs + [run]), source, |s.runs|, text, h);
    forall p | p in s'.sources && Produced(s', p, h)
      ensures Rank(s'.sources[p].access) <= Rank(Effective(s', h))
    {
      var r :| r in s'.runs && r.source == p && r.status == Success && r.markdown == Some(h);
      if r in s.runs {
        assert RunOk(w, s, r) && Produced(s, p, h);
      } else {
        assert r == run;
      }
    }
  }

  lemma ProducersAreSources(w: World, s: State, s': State, source: Digest, h: Digest)
    requires Inv(w, s) && s'.runs == s.runs
    ensures Produced(s', source, h) <==> Produced(s, source, h)
    ensures Produced(s, source, h) ==> source in s.sources
  {
    if Produced(s, source, h) {
      var r :| r in s.runs && r.source == source && r.status == Success && r.markdown == Some(h);
      assert RunOk(w, s, r);
      assert r in s'.runs;
    }
  }

  /** An ingest that tightens a source keeps a row covering exactly when the source did not produce that
      markdown, owns its row, or stays within the row's class: the row itself is not re-pointed. */
  lemma IngestKeepsCoverageIff(w: World, s: State, b: Bytes, fileType: FileType, incoming: AccessClass, h: Digest)
    requires Inv(w, s) && h in s.documents && Covers(s, h)
    ensures var s' := Ingested(s, b, fileType, incoming);
            Covers(s', h) <==>
              !Produced(s, FileHash(b), h) || s.documents[h].source == FileHash(b) ||
              Rank(s'.sources[FileHash(b)].access) <= Rank(Effective(s, h))
  {
    var s' := Ingested(s, b, fileType, incoming);
    assert DocumentOk(s, h);
    assert s'.runs == s.runs;
    forall p
      ensures Produced(s', p, h) <==> Produced(s, p, h)
      ensures Produced(s, p, h) ==> p in s.sources
    {
      ProducersAreSources(w, s, s', p, h);
    }
    if Covers(s', h) && Produced(s, FileHash(b), h) {
      assert Produced(s', FileHash(b), h);
    }
  }

  // ----- A producer tightened after its conversion is not reflected -----

  /** A backend that gives the same valid markdown for every file. */
  function Same(): World { World((b, v, c) => Some(7), t => true) }

  /** Two open-access files, converted with runs `runs`; the shared row belongs to the first. */
  function TwoFiles(second: AccessClass, runs: seq<Run>): State {
    State(map[FileHash(1) := Source(1, Pdf, OpenAccess), FileHash(2) := Source(2, Pdf, second)], runs,
          if runs == [] then map[] else map[TextHash(7) := Document(FileHash(1), 0)],
          if runs == [] then map[] else map[TextHash(7) := 7])
  }

  function SuccessOf(b: Bytes, cfg: MarkerConfig): Run {
    Run(FileHash(b), Fingerprint(0, cfg), Success, Some(TextHash(7)))
  }

  lemma AfterOneMore(w: World, ops: seq<Op>, op: Op)
    ensures After(w, ops + [op]) == Step(w, After(w, ops), op)
  {
    assert (ops + [op])[..|ops|] == ops;
  }

  lemma TwoIngests()
    ensures After(Same(), [Ingest(1, Pdf, OpenAccess, OpenAccessFetch), Ingest(2, Pdf, OpenAccess, OpenAccessFetch)])
         == TwoFiles(OpenAccess, [])
  {
    var o1, o2 := Ingest(1, Pdf, OpenAccess, OpenAccessFetch), Ingest(2, Pdf, OpenAccess, OpenAccessFetch);
    AfterOneMore(Same(), [], o1);
    AfterOneMore(Same(), [o1], o2);
    assert [] + [o1] == [o1] && [o1] + [o2] == [o1, o2];
    assert After(Same(), [o1]) == EMPTY.(sources := map[FileHash(1) := Source(1, Pdf, OpenAccess)]);
  }

  lemma FirstConversion(cfg: MarkerConfig)
    requires !cfg.useLlm
    ensures Step(Same(), TwoFiles(OpenAccess, []), DoConvert(FileHash(1), 0, cfg, false, false))
         == TwoFiles(OpenAccess, [SuccessOf(1, cfg)])
  {
    FreshIsSucceeded(Same(), TwoFiles(OpenAccess, []), FileHash(1), 0, cfg);
  }

  lemma SecondConversion(cfg: MarkerConfig)
    requires !cfg.useLlm
    ensures Step(Same(), TwoFiles(OpenAccess, [SuccessOf(1, cfg)]), DoConvert(FileHash(2), 0, cfg, false, false))
         == TwoFiles(OpenAccess, [SuccessOf(1, cfg), SuccessOf(2, cfg)])
  {
    var s := TwoFiles(OpenAccess, [SuccessOf(1, cfg)]);
    assert s.runs[..0] == [];
    assert Hit(s.runs, s.documents, FileHash(2), Fingerprint(0, cfg)) == None;
    FreshIsSucceeded(Same(), s, FileHash(2), 0, cfg);
    var s' := Succeeded(s, FileHash(2), Fingerprint(0, cfg), 7);
    assert s'.runs == [SuccessOf(1, cfg), SuccessOf(2, cfg)];
    assert s'.documents == s.documents && s'.blobs == s.blobs;
  }

  function TwoFilesHistory(cfg: MarkerConfig): seq<Op> {
    [Ingest(1, Pdf, OpenAccess, OpenAccessFetch), Ingest(2, Pdf, OpenAccess, OpenAccessFetch)]
    + [DoConvert(FileHash(1), 0, cfg, false, false)] + [DoConvert(FileHash(2), 0, cfg, false, false)]
    + [Ingest(2, Pdf, UserSuppliedPrivate, Upload)]
  }

  lemma AfterTwoFilesHistory(cfg: MarkerConfig)
    requires !cfg.useLlm
    ensures After(Same(), TwoFilesHistory(cfg)) == TwoFiles(UserSuppliedPrivate, [SuccessOf(1, cfg), SuccessOf(2, cfg)])
  {
    var ingests := [Ingest(1, Pdf, OpenAccess, OpenAccessFetch), Ingest(2, Pdf, OpenAccess, OpenAccessFetch)];
    var first, second := DoConvert(FileHash(1), 0, cfg, false, false), DoConvert(FileHash(2), 0, cfg, false, false);
    TwoIngests();
    FirstConversion(cfg);
    SecondConversion(cfg);
    AfterOneMore(Same(), ingests, first);
    AfterOneMore(Same(), ingests + [first], second);
    AfterOneMore(Same(), ingests + [first] + [second], Ingest(2, Pdf, UserSuppliedPrivate, Upload));
  }

  /** Two open-access files with the same markdown; the second is later found to be private.  Its class is
      not reflected in the shared row, converting it again from the cache does not help, and only a forced
      conversion, which stores, brings the row up to it. */
  lemma TightenedProducerIsNotReflected(cfg: MarkerConfig)
    requires !cfg.useLlm
    ensures var h := TextHash(7);
            var s := After(Same(), TwoFilesHistory(cfg));
            && s.sources[FileHash(2)].access == UserSuppliedPrivate
            && Produced(s, FileHash(2), h)
            && Effective(s, h) == OpenAccess
            && Effective(Convert(Same(), s, FileHash(2), 0, cfg, false, false).0, h) == OpenAccess
            && Effective(Convert(Same(), s, FileHash(2), 0, cfg, true, false).0, h) == UserSuppliedPrivate
  {
    AfterTwoFilesHistory(cfg);
    var s := TwoFiles(UserSuppliedPrivate, [SuccessOf(1, cfg), SuccessOf(2, cfg)]);
    assert s.runs[1] in s.runs;
    assert Hit(s.runs, s.documents, FileHash(2), Fingerprint(0, cfg)) == Some(TextHash(7));
    FreshIsSucceeded(Same(), s, FileHash(2), 0, cfg);
  }

  // ----- Crashes -----

  /** A process that dies inside a conversion of a known source leaves one pending run without output, and perhaps the
      text it had written under its hash; the sources and the markdown rows are those before it. */
  lemma CrashLeaves(w: World, s: State, source: Digest, version: nat, cfg: MarkerConfig, blob: Option<Text>)
    ensures source !in s.sources ==> Step(w, s, Crash(source, version, cfg, blob)) == s
    ensures source in s.sources
            ==> var s' := Step(w, s, Crash(source, version, cfg, blob));
                && s'.sources == s.sources && s'.documents == s.documents
                && s'.runs == s.runs + [Run(source, Fingerprint(version, cfg), Pending, None)]
                && s'.blobs == if blob == None then s.blobs else s.blobs[TextHash(blob.value) := blob.value]
  {
  }
}
