// cache/ingest.py and cache/convert.py: the content-addressed cache of sources and conversions.
module ContentCache {
  import opened Prelude
  import opened Access

  // File contents and texts are only hashed, converted and compared, so numbers stand for them.
  type Bytes = nat
  type Text = nat

  datatype FileType = Pdf | Html
  /** An LLM service on this machine, or one that is reached over the network. */
  datatype Service = LocalService(name: nat) | ExternalService(name: nat)
  datatype MarkerConfig = MarkerConfig(
    useLlm: bool, redoInlineMath: bool, forceOcr: bool, outputFormat: nat, paginateOutput: bool,
    llmService: Option<Service>, llmModel: Option<nat>, llmPromptVersion: Option<nat>)

  /** SHA-256 taken as injective: a digest is the value that was hashed. */
  datatype Payload =
    | FileBytes(bytes: Bytes)
    | Markdown(text: Text)
    | Identity(version: nat, config: MarkerConfig)
    | ExternalImport(markdown: Digest)
  datatype Digest = Sha256(payload: Payload)

  datatype Source = Source(bytes: Bytes, fileType: FileType, access: AccessClass)
  datatype RunStatus = Pending | Success | Failed
  datatype Run = Run(source: Digest, fingerprint: Digest, status: RunStatus, markdown: Option<Digest>)
  datatype Document = Document(source: Digest, run: nat)

  /** The rows of cache.db and the markdown blobs; runs are in creation order, newest last. */
  datatype State = State(
    sources: map<Digest, Source>, runs: seq<Run>, documents: map<Digest, Document>, blobs: map<Digest, Text>)

  /** A deterministic backend and the fatal validation gate. */
  datatype World = World(convert: (Bytes, nat, MarkerConfig) -> Option<Text>, valid: Text -> bool)

  datatype Error = UnknownSource | HtmlDeferred | ExternalLlmRefused | ConversionFailed
  datatype Result = Converted(markdown: Digest) | Refused(error: Error)

  const EMPTY := State(map[], [], map[], map[])

  function FileHash(b: Bytes): Digest { Sha256(FileBytes(b)) }
  function TextHash(t: Text): Digest { Sha256(Markdown(t)) }
  function Fingerprint(version: nat, cfg: MarkerConfig): Digest { Sha256(Identity(version, cfg)) }

  // ----- Each operation as a function on the state -----

  /** Ingest: the class asked for, never less restrictive than the acquisition method allows. */
  function Incoming(requested: AccessClass, m: Acquisition): AccessClass {
    Stricter(requested, DefaultAccess(m))
  }

  function Ingested(s: State, b: Bytes, fileType: FileType, incoming: AccessClass): State {
    var h := FileHash(b);
    if h in s.sources
    then s.(sources := s.sources[h := s.sources[h].(access := Stricter(s.sources[h].access, incoming))])
    else s.(sources := s.sources[h := Source(b, fileType, incoming)])
  }

  /** store_markdown_document: write the blob; insert the shared row, or re-point it to a strictly more
      restrictive source. */
  function Stored(s: State, source: Digest, access: AccessClass, run: nat, text: Text): State {
    var h := TextHash(text);
    var keep := h in s.documents && s.documents[h].source in s.sources &&
                Rank(s.sources[s.documents[h].source].access) >= Rank(access);
    s.(blobs := s.blobs[h := text],
       documents := if keep then s.documents else s.documents[h := Document(source, run)])
  }

  predicate IsHit(r: Run, source: Digest, fingerprint: Digest) {
    r.source == source && r.fingerprint == fingerprint && r.status == Success && r.markdown.Some?
  }

  /** The newest successful run of a source and fingerprint. */
  function Hit(runs: seq<Run>, documents: map<Digest, Document>, source: Digest, fingerprint: Digest): Option<Digest> {
    if runs == [] then None
    else
      var r := runs[|runs| - 1];
      if IsHit(r, source, fingerprint) && r.markdown.value in documents then r.markdown
      else Hit(runs[..|runs| - 1], documents, source, fingerprint)
  }

  predicate NeedsExternalLlm(cfg: MarkerConfig) {
    cfg.useLlm && !(cfg.llmService.Some? && cfg.llmService.value.LocalService?)
  }

  /** What refuses a conversion before any run is minted. */
  function Gate(s: State, source: Digest, cfg: MarkerConfig, allowExternal: bool): Option<Error> {
    if source !in s.sources then Some(UnknownSource)
    else if s.sources[source].fileType == Html then Some(HtmlDeferred)
    else if NeedsExternalLlm(cfg) && s.sources[source].access == UserSuppliedPrivate && !allowExternal then
      Some(ExternalLlmRefused)
    else None
  }

  function Finished(s: State, run: nat, status: RunStatus, markdown: Option<Digest>): State
    requires run < |s.runs|
  {
    s.(runs := s.runs[run := s.runs[run].(status := status, markdown := markdown)])
  }

  function Minted(s: State, source: Digest, fingerprint: Digest): State {
    s.(runs := s.runs + [Run(source, fingerprint, Pending, None)])
  }

  /** What a conversion that really calls the backend makes of the state. */
  function Fresh(w: World, s: State, source: Digest, version: nat, cfg: MarkerConfig): (State, Result)
    requires source in s.sources
  {
    var run := |s.runs|;
    var s1 := Minted(s, source, Fingerprint(version, cfg));
    var text := w.convert(s.sources[source].bytes, version, cfg);
    if text.None? || !w.valid(text.value) then (Finished(s1, run, Failed, None), Refused(ConversionFailed))
    else
      var s2 := Stored(s1, source, s.sources[source].access, run, text.value);
      (Finished(s2, run, Success, Some(TextHash(text.value))), Converted(TextHash(text.value)))
  }

  function Convert(
      w: World, s: State, source: Digest, version: nat, cfg: MarkerConfig, force: bool, allowExternal: bool):
    (State, Result)
  {
    var gate := Gate(s, source, cfg, allowExternal);
    if gate.Some? then (s, Refused(gate.value))
    else
      var hit := Hit(s.runs, s.documents, source, Fingerprint(version, cfg));
      if !force && hit.Some? then (s, Converted(hit.value)) else Fresh(w, s, source, version, cfg)
  }

  function Imported(s: State, source: Digest, text: Text): (State, Result) {
    if source !in s.sources then (s, Refused(UnknownSource))
    else
      var h := TextHash(text);
      var s1 := s.(runs := s.runs + [Run(source, Sha256(ExternalImport(h)), Success, Some(h))]);
      (Stored(s1, source, s.sources[source].access, |s.runs|, text), Converted(h))
  }

  // ----- The cache object -----

  class Cache {
    const world: World
    var sources: map<Digest, Source>
    var runs: seq<Run>
    var documents: map<Digest, Document>
    var blobs: map<Digest, Text>
    /** How often the backend has been called. */
    var calls: nat

    function View(): State
      reads this
    {
      State(sources, runs, documents, blobs)
    }

    constructor (w: World)
      ensures View() == EMPTY && calls == 0 && world == w
    {
      world := w;
      sources, runs, documents, blobs, calls := map[], [], map[], map[], 0;
    }

    method IngestFile(b: Bytes, fileType: FileType, requested: AccessClass, acquisition: Acquisition)
      modifies this
      ensures View() == Ingested(old(View()), b, fileType, Incoming(requested, acquisition)) && calls == old(calls)
    {
      var incoming := Reconcile(requested, DefaultAccess(acquisition));
      var h := FileHash(b);
      if h in sources {
        var stored := sources[h].access;
        var reconciled := Reconcile(stored, incoming);
        if reconciled != stored {
          sources := sources[h := sources[h].(access := reconciled)];
        }
      } else {
        sources := sources[h := Source(b, fileType, incoming)];
      }
    }

    method StoreMarkdownDocument(source: Digest, access: AccessClass, run: nat, text: Text)
      modifies this`blobs, this`documents
      ensures View() == Stored(old(View()), source, access, run, text)
    {
      var h := TextHash(text);
      blobs := blobs[h := text];
      if h !in documents || documents[h].source !in sources {
        documents := documents[h := Document(source, run)];
      } else {
        var stored := sources[documents[h].source].access;
        var strictest := Reconcile(stored, access);
        if strictest == access && access != stored {
          documents := documents[h := Document(source, run)];
        } else {
          RankSeparates(stored, access);
        }
      }
    }

    /** Unforced, a conversion is answered from the cache when a success is recorded; otherwise a run is
        minted, the backend is called once, and only valid output is stored. */
    method ConvertSourceFile(source: Digest, version: nat, cfg: MarkerConfig, force: bool, allowExternal: bool)
      returns (r: Result)
      modifies this
      ensures (View(), r) == Convert(world, old(View()), source, version, cfg, force, allowExternal)
      ensures calls == old(calls) + if |runs| > |old(runs)| then 1 else 0
    {
      if source !in sources {
        return Refused(UnknownSource);
      }
      var src := sources[source];
      if src.fileType == Html {
        return Refused(HtmlDeferred);
      }
      if NeedsExternalLlm(cfg) && src.access == UserSuppliedPrivate && !allowExternal {
        return Refused(ExternalLlmRefused);
      }
      var fingerprint := Fingerprint(version, cfg);
      if !force {
        var hit := FindHit(source, fingerprint);
        if hit.Some? {
          return Converted(hit.value);
        }
      }
      r := ConvertAfresh(source, version, cfg);
    }

    /** Mints a run, calls the backend once, and records the outcome on the run. */
    method ConvertAfresh(source: Digest, version: nat, cfg: MarkerConfig) returns (r: Result)
      requires source in sources
      modifies this
      ensures (View(), r) == Fresh(world, old(View()), source, version, cfg)
      ensures calls == old(calls) + 1 && |runs| == |old(runs)| + 1
    {
      var src, run := sources[source], |runs|;
      runs := runs + [Run(source, Fingerprint(version, cfg), Pending, None)];
      calls := calls + 1;
      var text := world.convert(src.bytes, version, cfg);
      if text.None? || !world.valid(text.value) {
        runs := runs[run := runs[run].(status := Failed, markdown := None)];
        return Refused(ConversionFailed);
      }
      StoreMarkdownDocument(source, src.access, run, text.value);
      runs := runs[run := runs[run].(status := Success, markdown := Some(TextHash(text.value)))];
      return Converted(TextHash(text.value));
    }

    /** ORDER BY created_at DESC LIMIT 1. */
    method FindHit(source: Digest, fingerprint: Digest) returns (hit: Option<Digest>)
      ensures hit == Hit(runs, documents, source, fingerprint)
    {
      var i := |runs|;
      assert runs[..|runs|] == runs;
      while i > 0
        invariant 0 <= i <= |runs|
        invariant Hit(runs, documents, source, fingerprint) == Hit(runs[..i], documents, source, fingerprint)
      {
        assert runs[..i][..i - 1] == runs[..i - 1];
        i := i - 1;
        if IsHit(runs[i], source, fingerprint) && runs[i].markdown.value in documents {
          return runs[i].markdown;
        }
      }
      return None;
    }

    method ImportExternalMarkdown(source: Digest, text: Text) returns (r: Result)
      modifies this
      ensures (View(), r) == Imported(old(View()), source, text) && calls == old(calls)
    {
      if source !in sources {
        return Refused(UnknownSource);
      }
      var h := TextHash(text);
      var run := |runs|;
      runs := runs + [Run(source, Sha256(ExternalImport(h)), Success, Some(h))];
      StoreMarkdownDocument(source, sources[source].access, run, text);
      return Converted(h);
    }
  }

  lemma RankSeparates(stored: AccessClass, access: AccessClass)
    ensures Stricter(stored, access) == access && access != stored <==> Rank(stored) < Rank(access)
  {
  }
}
