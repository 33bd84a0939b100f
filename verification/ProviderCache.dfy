// cache/provider_cache.py: the request-key grammar and the read/write surface of provider_cache.
module ProviderCache {
  import opened Prelude

  type RawId = nat
  type Title = nat
  datatype IdType = OpenAlex | Doi | Arxiv | Pmid | S2

  /** A work or record as canonical_request_id reads it; values are already stripped and lowercased. */
  datatype Record = Record(
    openalex: Option<RawId>, doi: Option<RawId>, arxiv: Option<RawId>, pmid: Option<RawId>, s2: Option<RawId>,
    title: Option<Title>)

  datatype Key = ById(idType: IdType, value: RawId) | ByTitle(title: Title) | Anon

  /** `fold` is the arXiv id of a DOI in the arXiv-DOI alias family, None for every other DOI. */
  function CanonicalRequestId(r: Record, fold: RawId -> Option<RawId>): Key {
    if r.openalex.Some? then ById(OpenAlex, r.openalex.value)
    else if r.doi.Some? then
      if fold(r.doi.value).Some? then ById(Arxiv, fold(r.doi.value).value) else ById(Doi, r.doi.value)
    else if r.arxiv.Some? then ById(Arxiv, r.arxiv.value)
    else if r.pmid.Some? then ById(Pmid, r.pmid.value)
    else if r.s2.Some? then ById(S2, r.s2.value)
    else if r.title.Some? then ByTitle(r.title.value)
    else Anon
  }

  predicate Kept(before: Option<nat>, after: Option<nat>) {
    before.Some? ==> after == before
  }

  /** `r'` is `r` with some empty fields filled in, as the identity backfill does. */
  predicate FilledIn(r: Record, r': Record) {
    && Kept(r.openalex, r'.openalex) && Kept(r.doi, r'.doi) && Kept(r.arxiv, r'.arxiv)
    && Kept(r.pmid, r'.pmid) && Kept(r.s2, r'.s2) && Kept(r.title, r'.title)
  }

  /** The newly filled DOI is an alias of the arXiv id the record was already known by. */
  predicate AliasOfKnownArxiv(r: Record, doi: RawId, fold: RawId -> Option<RawId>) {
    fold(doi).Some? && r.arxiv == fold(doi)
  }

  /** No id preferred to the one the key was built from has been filled in, except an arXiv alias of it. */
  predicate NothingPreferredFilledIn(r: Record, r': Record, fold: RawId -> Option<RawId>) {
    && (r.openalex.None? ==> r'.openalex.None?)
    && (r.openalex.None? && r.doi.None? && r'.doi.Some? ==> AliasOfKnownArxiv(r, r'.doi.value, fold))
    && (r.openalex.None? && r.doi.None? && r.arxiv.None? ==> r'.arxiv.None?)
    && (r.openalex.None? && r.doi.None? && r.arxiv.None? && r.pmid.None? ==> r'.pmid.None?)
    && (r.openalex.None? && r.doi.None? && r.arxiv.None? && r.pmid.None? && r.s2.None? ==> r'.s2.None?)
    && (CanonicalRequestId(r, fold) == Anon ==> r'.title.None?)
  }

  /** Filling in fields moves the request key exactly when a preferred id has arrived. */
  lemma KeyStableIff(r: Record, r': Record, fold: RawId -> Option<RawId>)
    requires FilledIn(r, r')
    ensures CanonicalRequestId(r', fold) == CanonicalRequestId(r, fold) <==> NothingPreferredFilledIn(r, r', fold)
  {
  }

  // ----- The table -----

  datatype Row<V> = Row(response: Option<V>, fetchedAt: int, ttl: int)
  datatype Slot = Slot(provider: nat, key: Key)

  predicate Fresh<V>(row: Row<V>, now: int) {
    now - row.fetchedAt < row.ttl
  }

  function Put<V>(t: map<Slot, Row<V>>, provider: nat, key: Key, response: V, now: int, ttl: int): map<Slot, Row<V>> {
    t[Slot(provider, key) := Row(Some(response), now, ttl)]
  }

  function Get<V>(t: map<Slot, Row<V>>, provider: nat, key: Key, now: int): Option<V> {
    if Slot(provider, key) in t && Fresh(t[Slot(provider, key)], now) then t[Slot(provider, key)].response else None
  }

  /** A record known by its DOI gets an OpenAlex id: its request key moves. */
  lemma FilledInIdMovesTheKey(fold: RawId -> Option<RawId>)
    requires fold(7).None?
    ensures var r := Record(None, Some(7), None, None, None, None);
            var r' := r.(openalex := Some(3));
            && FilledIn(r, r')
            && CanonicalRequestId(r, fold) == ById(Doi, 7) && CanonicalRequestId(r', fold) == ById(OpenAlex, 3)
  {
  }

  /** A list stored under a record's key is read back through the filled-in record if and only if no preferred id has
      been filled in since and its lifetime has not passed; under another key the read gives what that slot held. */
  lemma StoredListFoundIff<V>(
      t: map<Slot, Row<V>>, provider: nat, r: Record, r': Record, fold: RawId -> Option<RawId>, response: V,
      now: int, later: int, ttl: int)
    requires FilledIn(r, r')
    ensures Get(Put(t, provider, CanonicalRequestId(r, fold), response, now, ttl),
                provider, CanonicalRequestId(r', fold), later)
         == if NothingPreferredFilledIn(r, r', fold) then if later - now < ttl then Some(response) else None
            else Get(t, provider, CanonicalRequestId(r', fold), later)
  {
    KeyStableIff(r, r', fold);
  }
}
