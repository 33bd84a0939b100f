// What the cache promises over every sequential history of ingests, conversions, imports and crashes.
module CacheHistory {
  import opened Prelude
  import opened Access
  import opened ContentCache

  datatype Op =
    | Ingest(bytes: Bytes, fileType: FileType, requested: AccessClass, acquisition: Acquisition)
    | DoConvert(source: Digest, version: nat, cfg: MarkerConfig, force: bool, allowExternal: bool)
    | DoImport(source: Digest, text: Text)
    /** The process dies inside a conversion, after committing the pending run; a blob may be left behind. */
    | Crash(source: Digest, version: nat, cfg: MarkerConfig, blob: Option<Text>)

  function Step(w: World, s: State, op: Op): State {
    match op
    case Ingest(b, fileType, requested, acquisition) => Ingested(s, b, fileType, Incoming(requested, acquisition))
    case DoConvert(source, version, cfg, force, allowExternal) =>
      Convert(w, s, source, version, cfg, force, allowExternal).0
    case DoImport(source, text) => Imported(s, source, text).0
    case Crash(source, version, cfg, blob) =>
      if source !in s.sources then s
      else
        var s1 := Minted(s, source, Fingerprint(version, cfg));
        if blob.Some? then s1.(blobs := s1.blobs[TextHash(blob.value) := blob.value]) else s1
  }

  /** The state after a history, oldest operation first. */
  function After(w: World, ops: seq<Op>): State {
    if ops == [] then EMPTY else Step(w, After(w, ops[..|ops| - 1]), ops[|ops| - 1])
  }

  // ----- The invariant -----

  /** A success run has its markdown row and its blob, and a Marker run recorded what the backend gives;
      a pending or failed run has no output. */
  predicate RunOk(w: World, s: State, r: Run) {
    && r.source in s.sources
    && (r.status != Success ==> r.markdown == None)
    && (r.status == Success ==>
          && r.markdown.Some?
          && r.markdown.value in s.documents && r.markdown.value in s.blobs
          && match r.fingerprint
             case Sha256(Identity(version, cfg)) =>
               var text := w.convert(s.sources[r.source].bytes, version, cfg);
               text.Some? && w.valid(text.value) && r.markdown.value == TextHash(text.value)
             case Sha256(ExternalImport(h)) => r.markdown.value == h
             case _ => false)
  }

  /** A markdown row points at an existing source and at a successful run that produced it. */
  predicate DocumentOk(s: State, h: Digest)
    requires h in s.documents
  {
    var d := s.documents[h];
    && d.source in s.sources && d.run < |s.runs|
    && s.runs[d.run] == Run(d.source, s.runs[d.run].fingerprint, Success, Some(h))
    && h in s.blobs
  }

  ghost predicate Inv(w: World, s: State) {
    && (forall h :: h in s.sources ==> h == FileHash(s.sources[h].bytes))
    && (forall r :: r in s.runs ==> RunOk(w, s, r))
    && (forall h :: h in s.documents ==> DocumentOk(s, h))
    && (forall h :: h in s.blobs ==> h == TextHash(s.blobs[h]))
  }

  lemma IngestKeeps(w: World, s: State, b: Bytes, fileType: FileType, incoming: AccessClass)
    requires Inv(w, s)
    ensures Inv(w, Ingested(s, b, fileType, incoming))
  {
    var s' := Ingested(s, b, fileType, incoming);
    forall r | r in s'.runs
      ensures RunOk(w, s', r)
    {
      assert RunOk(w, s, r);
    }
    forall h | h in s'.documents
      ensures DocumentOk(s', h)
    {
      assert DocumentOk(s, h);
    }
  }

  lemma MintKeeps(w: World, s: State, source: Digest, fingerprint: Digest)
    requires Inv(w, s) && source in s.sources
    ensures Inv(w, Minted(s, source, fingerprint))
  {
    var s' := Minted(s, source, fingerprint);
    forall r | r in s'.runs
      ensures RunOk(w, s', r)
    {
      assert r in s.runs ==> RunOk(w, s, r);
    }
    forall h | h in s'.documents
      ensures DocumentOk(s', h)
    {
      assert DocumentOk(s, h);
    }
  }

  lemma BlobKeeps(w: World, s: State, text: Text)
    requires Inv(w, s)
    ensures Inv(w, s.(blobs := s.blobs[TextHash(text) := text]))
  {
    var s' := s.(blobs := s.blobs[TextHash(text) := text]);
    forall r | r in s'.runs
      ensures RunOk(w, s', r)
    {
      assert RunOk(w, s, r);
    }
    forall h | h in s'.documents
      ensures DocumentOk(s', h)
    {
      assert DocumentOk(s, h);
    }
  }

  lemma FailKeeps(w: World, s: State, source: Digest, fingerprint: Digest)
    requires Inv(w, s) && source in s.sources
    ensures Inv(w, Finished(Minted(s, source, fingerprint), |s.runs|, Failed, None))
  {
    var s' := Finished(Minted(s, source, fingerprint), |s.runs|, Failed, None);
    assert s'.runs == s.runs + [Run(source, fingerprint, Failed, None)];
    forall r | r in s'.runs
      ensures RunOk(w, s', r)
    {
      assert r in s.runs ==> RunOk(w, s, r);
    }
    forall h | h in s'.documents
      ensures DocumentOk(s', h)
    {
      assert DocumentOk(s, h);
    }
  }

  /** The state after a run that succeeded with `text`, whether converted or imported. */
  function Succeeded(s: State, source: Digest, fingerprint: Digest, text: Text): State
    requires source in s.sources
  {
    Stored(s.(runs := s.runs + [Run(source, fingerprint, Success, Some(TextHash(text)))]),
           source, s.sources[source].access, |s.runs|, text)
  }

  lemma SuccessKeeps(w: World, s: State, source: Digest, fingerprint: Digest, text: Text)
    requires Inv(w, s) && source in s.sources
    requires match fingerprint
             case Sha256(Identity(version, cfg)) =>
               w.convert(s.sources[source].bytes, version, cfg) == Some(text) && w.valid(text)
             case Sha256(ExternalImport(h)) => h == TextHash(text)
             case _ => false
    ensures Inv(w, Succeeded(s, source, fingerprint, text))
  {
    var s' := Succeeded(s, source, fingerprint, text);
    forall r | r in s'.runs
      ensures RunOk(w, s', r)
    {
      assert r in s.runs ==> RunOk(w, s, r);
    }
    forall h | h in s'.documents
      ensures DocumentOk(s', h)
    {
      assert h in s.documents ==> DocumentOk(s, h);
    }
  }

  lemma FreshIsSucceeded(w: World, s: State, source: Digest, version: nat, cfg: MarkerConfig)
    requires source in s.sources
    ensures var text := w.convert(s.sources[source].bytes, version, cfg);
            text.Some? && w.valid(text.value) ==>
              Fresh(w, s, source, version, cfg).0 == Succeeded(s, source, Fingerprint(version, cfg), text.value)
  {
    var text := w.convert(s.sources[source].bytes, version, cfg);
    if text.Some? && w.valid(text.value) {
      var fp := Fingerprint(version, cfg);
      var success := Run(source, fp, Success, Some(TextHash(text.value)));
      assert (s.runs + [Run(source, fp, Pending, None)])[|s.runs| := success]
          == s.runs + [Run(source, fp, Success, Some(TextHash(text.value)))];
    }
  }

  lemma FreshKeeps(w: World, s: State, source: Digest, version: nat, cfg: MarkerConfig)
    requires Inv(w, s) && source in s.sources
    ensures Inv(w, Fresh(w, s, source, version, cfg).0)
  {
    var text := w.convert(s.sources[source].bytes, version, cfg);
    if text.None? || !w.valid(text.value) {
      FailKeeps(w, s, source, Fingerprint(version, cfg));
    } else {
      FreshIsSucceeded(w, s, source, version, cfg);
      SuccessKeeps(w, s, source, Fingerprint(version, cfg), text.value);
    }
  }

  lemma StepKeeps(w: World, s: State, op: Op)
    requires Inv(w, s)
    ensures Inv(w, Step(w, s, op))
  {
    match op
    case Ingest(b, fileType, requested, acquisition) =>
      IngestKeeps(w, s, b, fileType, Incoming(requested, acquisition));
    case DoConvert(source, version, cfg, force, allowExternal) =>
      if source in s.sources {
        FreshKeeps(w, s, source, version, cfg);
      }
    case DoImport(source, text) =>
      if source in s.sources {
        SuccessKeeps(w, s, source, Sha256(ExternalImport(TextHash(text))), text);
      }
    case Crash(source, version, cfg, blob) =>
      if source in s.sources {
        MintKeeps(w, s, source, Fingerprint(version, cfg));
        if blob.Some? {
          BlobKeeps(w, Minted(s, source, Fingerprint(version, cfg)), blob.value);
        }
      }
  }

  /** Over every history: success runs have their row, blob and recorded output; the others have none. */
  lemma {:induction false} HistoryKeepsInvariant(w: World, ops: seq<Op>)
    ensures Inv(w, After(w, ops))
  {
    if ops != [] {
      HistoryKeepsInvariant(w, ops[..|ops| - 1]);
      StepKeeps(w, After(w, ops[..|ops| - 1]), ops[|ops| - 1]);
    }
  }
}
