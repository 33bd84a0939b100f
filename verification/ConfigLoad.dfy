// config/loader.py: loading and writing a project's settings over the machine-global ones.
module ConfigLoad {
  import opened Prelude
  import opened ConfigMerge
  import opened ConfigClamp

  // ----- The credential boundary -----

  /** Field names that define or redirect a profile. */
  predicate DefinesProfile(k: Key) {
    k.Profiles? || k.Routing?
  }

  /** _assert_no_profile_routing passes. */
  predicate RoutingFree(v: Tree) {
    match v
    case Dict(m) => forall k :: k in m ==> !DefinesProfile(k) && RoutingFree(m[k])
    case List(items) => forall i :: 0 <= i < |items| ==> RoutingFree(items[i])
    case _ => true
  }

  /** _assert_no_raw_secrets passes. */
  predicate SecretFree(v: Tree) {
    match v
    case Dict(m) => forall k :: k in m ==> !k.Secret? && SecretFree(m[k])
    case List(items) => forall i :: 0 <= i < |items| ==> SecretFree(items[i])
    case _ => true
  }

  /** Puts the profile registry back to the global one, or removes it if there is none. */
  function StripProfiles(g: Tree, merged: Tree): Tree {
    var llm := Below(merged, Llm);
    var profiles := Below(Below(g, Llm), Profiles);
    if !llm.Dict? then merged
    else Dict(merged.m[Llm := Dict(if profiles.Dict? then llm.m[Profiles := profiles] else llm.m - {Profiles})])
  }

  // ----- Loading -----

  /** The merged and clamped tree, before the profiles are put back. */
  function Candidate(g: Tree, project: Tree): Tree {
    ClampAll(CeilingSpec(), g, Merge(g, project))
  }

  /** The effective settings: the global tree with the project's over it, clamped, profiles put back. The slug
      and the final schema validation come after. */
  function Effective(g: Tree, project: Tree): Tree {
    StripProfiles(g, Candidate(g, project))
  }

  method LoadProject(defaults: Tree, global: Tree, project: Tree) returns (effective: Tree)
    ensures effective == Effective(Merge(defaults, global), project)
  {
    var g := Merge(defaults, global);
    var merged := Merge(g, project);
    merged := ClampProjectCeiling(CeilingSpec(), g, merged);
    effective := StripProfiles(g, merged);
  }

  // ----- Writing -----

  datatype Reason = NotAMapping | RawSecret | ProfileRouting | Invalid

  datatype Written = Refused(reason: Reason) | Saved(project: Tree)

  /** write_project_overrides; `valid` is the schema validation of the effective settings. */
  function WriteProject(g: Tree, existing: Tree, patch: Tree, valid: Tree -> bool): Written {
    if !patch.Dict? then Refused(NotAMapping)
    else if !SecretFree(patch) then Refused(RawSecret)
    else if !RoutingFree(Below(patch, Llm)) then Refused(ProfileRouting)
    else
      var project := Merge(existing, patch);
      if !SecretFree(project) then Refused(RawSecret)
      else if !RoutingFree(Below(project, Llm)) then Refused(ProfileRouting)
      else if !valid(Candidate(g, project)) then Refused(Invalid)
      else Saved(project)
  }

  // ----- What the loaded settings guarantee -----

  function ProfilesAddress(): Address {
    Down(Llm, Down(Profiles, Here))
  }

  /** No ceiling reaches the profiles, or stands at or above a section. */
  lemma CeilingsAvoidProfiles(c: Ceiling)
    requires c in CeilingSpec()
    ensures Avoids(c.path, ProfilesAddress())
    ensures !LiesUnder(c.path, Down(Llm, Here)) && !LiesUnder(c.path, Here)
  {
    assert c.path.part.At?;
    assert c.path.part.key == Llm ==> c.path.rest.part == At(Routes);
    assert c.path.Then?;
  }

  /** A ceiling address has at least two keys and is not that of the profiles. */
  lemma CeilingAddress(i: nat, a: Address)
    requires i < |CeilingSpec()| && Selects(CeilingSpec()[i].path, a)
    ensures a.Down? && a.rest.Down? && !(a.key == Llm && a.rest.key == Profiles)
  {
    var c := CeilingSpec()[i];
    assert c in CeilingSpec();
    CeilingsAvoidProfiles(c);
  }

  lemma StripElsewhere(g: Tree, merged: Tree, a: Address)
    requires a.Down? && a.rest.Down? && !(a.key == Llm && a.rest.key == Profiles)
    ensures Lookup(StripProfiles(g, merged), a) == Lookup(merged, a)
  {
  }

  /** The project puts something other than a mapping at the address or above it, strictly above the leaf. */
  predicate CutsOff(project: Tree, a: Address) {
    a.Down? && (!project.Dict? || (a.key in project.m && CutsOff(project.m[a.key], a.rest)))
  }

  /** A leaf of the global tree is missing from the merge exactly when the project replaces a section above it by
      something that is not a mapping. */
  lemma {:induction false} MissingIff(g: Tree, project: Tree, a: Address)
    requires Lookup(g, a).Some?
    ensures Lookup(Merge(g, project), a).None? <==> CutsOff(project, a)
    decreases a
  {
    if a.Down? && project.Dict? && a.key in project.m {
      MergedDict(g, project, a.key);
      MissingIff(g.m[a.key], project.m[a.key], a.rest);
    }
  }

  /** The loaded settings have exactly the ceiling leaves of the merge, and respect every ceiling: for any global
      and project trees a loaded leaf is at least as restrictive as the global one exactly when the two leaves
      are clampable. */
  lemma LoadedCeilingHolds(g: Tree, project: Tree, i: nat, a: Address)
    requires i < |CeilingSpec()| && Selects(CeilingSpec()[i].path, a) && AllowSet(CeilingSpec()[i].kind, GlobalAt(g, a))
    ensures Lookup(Effective(g, project), a).Some? <==> Lookup(Merge(g, project), a).Some?
    ensures Lookup(Merge(g, project), a).Some?
            ==> (Tight(CeilingSpec()[i].kind, GlobalAt(g, a), Lookup(Effective(g, project), a).value)
                 <==> Clampable(CeilingSpec()[i].kind, GlobalAt(g, a), Lookup(Merge(g, project), a).value))
  {
    var spec := CeilingSpec();
    CeilingSpecIsIndependent();
    CeilingAddress(i, a);
    assert Lookup(Effective(g, project), a) == Lookup(Candidate(g, project), a) by {
      StripElsewhere(g, Candidate(g, project), a);
    }
    CeilingLeaf(spec, g, Merge(g, project), i, a);
    if Lookup(Merge(g, project), a).Some? {
      CeilingHolds(spec, g, Merge(g, project), i, a);
    }
  }

  function FieldAddress(section: Key, field: Key): Address {
    Down(section, Down(field, Here))
  }

  /** A file with one section of one field. */
  function OneField(section: Key, field: Key, v: Tree): Tree {
    Dict(map[section := Dict(map[field := v])])
  }

  lemma OneFieldAt(section: Key, field: Key, v: Tree)
    ensures Lookup(OneField(section, field, v), FieldAddress(section, field)) == Some(v)
    ensures GlobalAt(OneField(section, field, v), FieldAddress(section, field)) == v
  {
    var t, inner := OneField(section, field, v), Dict(map[field := v]);
    assert Lookup(t, FieldAddress(section, field)) == Lookup(inner, Down(field, Here)) == Lookup(v, Here);
    assert GlobalAt(t, FieldAddress(section, field)) == GlobalAt(inner, Down(field, Here)) == GlobalAt(v, Here);
  }

  lemma OneFieldMerged(section: Key, field: Key, v: Tree, v': Tree)
    requires !v.Dict?
    ensures Merge(OneField(section, field, v), OneField(section, field, v')) == OneField(section, field, v')
  {
    var x, y := Dict(map[field := v]), Dict(map[field := v']);
    MergedDict(x, y, field);
    assert Merge(x, y).m == y.m;
    MergedDict(OneField(section, field, v), OneField(section, field, v'), section);
    assert Merge(OneField(section, field, v), OneField(section, field, v')).m == map[section := y];
  }

  /** What a project file of one field loads as over a global file of the same field. */
  lemma LoadedField(i: nat, section: Key, field: Key, v: Tree, v': Tree)
    requires i < |CeilingSpec()| && CeilingSpec()[i].path == Then(At(section), Last(At(field))) && !v.Dict?
    ensures Lookup(Effective(OneField(section, field, v), OneField(section, field, v')), FieldAddress(section, field))
            == Some(Rule(CeilingSpec()[i].kind, v, v'))
  {
    var spec, g, project := CeilingSpec(), OneField(section, field, v), OneField(section, field, v');
    OneFieldMerged(section, field, v, v');
    OneFieldAt(section, field, v);
    OneFieldAt(section, field, v');
    CeilingSpecIsIndependent();
    CeilingLeaf(spec, g, project, i, FieldAddress(section, field));
    CeilingAddress(i, FieldAddress(section, field));
    StripElsewhere(g, Candidate(g, project), FieldAddress(section, field));
  }

  /** A project file with `usd_limit: .nan` loads without the global cap. */
  lemma NaNIsLoaded()
    ensures var g, project := OneField(Budget, UsdLimit, Num(Finite(5.0))), OneField(Budget, UsdLimit, Num(NaN));
            Lookup(Effective(g, project), FieldAddress(Budget, UsdLimit)) == Some(Num(NaN))
  {
    assert CeilingSpec()[3] == Ceiling(Then(At(Budget), Last(At(UsdLimit))), Min);
    LoadedField(3, Budget, UsdLimit, Num(Finite(5.0)), Num(NaN));
  }

  /** With a quoted "no" in the global file and true in the project's, the external model is allowed. */
  lemma QuotedNoIsLoaded()
    ensures var g := OneField(ContentPolicy, AllowExternal, Str("no"));
            var project := OneField(ContentPolicy, AllowExternal, Bool(true));
            && AsFlag(Str("no")) == Some(false)
            && Lookup(Effective(g, project), FieldAddress(ContentPolicy, AllowExternal)) == Some(Bool(true))
  {
    QuotedNoOpensTheGate();
    assert CeilingSpec()[1] == Ceiling(Then(At(ContentPolicy), Last(At(AllowExternal))), And);
    LoadedField(1, ContentPolicy, AllowExternal, Str("no"), Bool(true));
  }

  /** The clamp leaves the profiles and the shape of the llm section alone. */
  lemma CandidateProfiles(g: Tree, project: Tree)
    ensures Lookup(Candidate(g, project), ProfilesAddress()) == Lookup(Merge(g, project), ProfilesAddress())
    ensures Below(Candidate(g, project), Llm).Dict? <==> Below(Merge(g, project), Llm).Dict?
  {
    var spec, m := CeilingSpec(), Merge(g, project);
    forall c | c in spec
      ensures Avoids(c.path, ProfilesAddress()) && !LiesUnder(c.path, Down(Llm, Here)) && !LiesUnder(c.path, Here)
    {
      CeilingsAvoidProfiles(c);
    }
    ClampAllAvoided(spec, g, m, ProfilesAddress());
    FreeLeafUnchanged(spec, g, m, Down(Llm, Here));
    DictBelow(m);
    DictBelow(Candidate(g, project));
  }

  lemma DictBelow(v: Tree)
    ensures Below(v, Llm).Dict? <==> !Scalar(Lookup(v, Down(Llm, Here)))
    ensures Below(v, Llm).Dict?
            ==> Lookup(v, ProfilesAddress())
                == if Profiles in Below(v, Llm).m then Some(Below(v, Llm).m[Profiles]) else None
  {
    if v.Dict? && Llm in v.m {
      var llm := v.m[Llm];
      assert Lookup(v, Down(Llm, Here)) == Lookup(llm, Here);
      assert Lookup(v, ProfilesAddress()) == Lookup(llm, Down(Profiles, Here));
      assert llm.Dict? && Profiles in llm.m ==> Lookup(llm, Down(Profiles, Here)) == Lookup(llm.m[Profiles], Here);
    }
  }

  /** Whatever the project file holds, the loaded profiles are the global ones, or there are none. */
  lemma ProfilesAreGlobal(g: Tree, project: Tree)
    ensures var loaded := Lookup(Effective(g, project), ProfilesAddress());
            var profiles := Below(Below(g, Llm), Profiles);
            loaded.Some? ==> profiles.Dict? && loaded == Some(profiles)
  {
    DictBelow(Effective(g, project));
    if !Below(Candidate(g, project), Llm).Dict? {
      var v := Candidate(g, project);
      assert Lookup(v, ProfilesAddress()) == None;
    }
  }

  /** The global profile registry is present but not a mapping, in a section the project keeps a mapping. */
  predicate BrokenRegistry(g: Tree, project: Tree) {
    var llm := Below(g, Llm);
    && llm.Dict? && Profiles in llm.m && !llm.m[Profiles].Dict?
    && (project.Dict? ==> Llm in project.m ==> project.m[Llm].Dict?)
  }

  lemma MergedProfiles(g: Tree, project: Tree)
    requires g.Dict? && project.Dict? && RoutingFree(Below(project, Llm))
    ensures var llm := Below(Merge(g, project), Llm);
            && (llm.Dict? && Profiles in llm.m ==> Below(g, Llm).Dict? && Profiles in Below(g, Llm).m
                                                   && llm.m[Profiles] == Below(g, Llm).m[Profiles])
            && (Below(g, Llm).Dict? && Profiles in Below(g, Llm).m && (Llm in project.m ==> project.m[Llm].Dict?)
                ==> llm.Dict? && Profiles in llm.m)
            && (Llm in project.m && !project.m[Llm].Dict? ==> !llm.Dict?)
  {
    MergedDict(g, project, Llm);
    if Llm in g.m && Llm in project.m && g.m[Llm].Dict? && project.m[Llm].Dict? {
      MergedDict(g.m[Llm], project.m[Llm], Profiles);
    }
  }

  lemma StripIsIdle(g: Tree, merged: Tree)
    ensures StripProfiles(g, merged) == merged
            <==> var llm, profiles := Below(merged, Llm), Below(Below(g, Llm), Profiles);
                 llm.Dict? ==> if profiles.Dict? then Profiles in llm.m && llm.m[Profiles] == profiles
                               else Profiles !in llm.m
  {
    var llm, profiles := Below(merged, Llm), Below(Below(g, Llm), Profiles);
    if llm.Dict? {
      var after := if profiles.Dict? then llm.m[Profiles := profiles] else llm.m - {Profiles};
      assert StripProfiles(g, merged).m[Llm] == Dict(after);
      assert after == llm.m ==> StripProfiles(g, merged).m == merged.m;
      assert profiles.Dict? && Profiles in llm.m && llm.m[Profiles] == profiles ==> after == llm.m;
      assert !profiles.Dict? && Profiles !in llm.m ==> after == llm.m;
      assert !profiles.Dict? ==> Profiles !in after;
      assert profiles.Dict? ==> Profiles in after && after[Profiles] == profiles;
    }
  }

  /** For a project file that passed the write-time scan, putting the profiles back changes nothing at load
      time, unless the global registry itself is malformed. */
  lemma StripIsIdleIff(g: Tree, project: Tree)
    requires g.Dict? && project.Dict? && RoutingFree(Below(project, Llm))
    ensures Effective(g, project) == Candidate(g, project) <==> !BrokenRegistry(g, project)
  {
    var c := Candidate(g, project);
    CandidateProfiles(g, project);
    DictBelow(c);
    DictBelow(Merge(g, project));
    MergedProfiles(g, project);
    StripIsIdle(g, c);
  }

  /** A global file with `llm: {profiles: null}`: loading any project without an llm section removes the key. */
  lemma NullRegistryIsRemoved()
    ensures var g := Dict(map[Llm := Dict(map[Profiles := Null])]);
            BrokenRegistry(g, Dict(map[])) && Effective(g, Dict(map[])) != Candidate(g, Dict(map[]))
  {
    var g := Dict(map[Llm := Dict(map[Profiles := Null])]);
    assert BrokenRegistry(g, Dict(map[]));
    StripIsIdleIff(g, Dict(map[]));
  }

  /** The schema types the profile registry as a mapping, so it refuses a tree with another one. */
  ghost predicate RefusesBrokenRegistry(valid: Tree -> bool) {
    forall c :: valid(c) ==> RegistryOk(c)
  }

  predicate RegistryOk(c: Tree) {
    Below(c, Llm).Dict? && Profiles in Below(c, Llm).m ==> Below(c, Llm).m[Profiles].Dict?
  }

  lemma BrokenIsRefused(g: Tree, project: Tree)
    requires g.Dict? && project.Dict? && RoutingFree(Below(project, Llm)) && RegistryOk(Candidate(g, project))
    ensures !BrokenRegistry(g, project)
  {
    CandidateProfiles(g, project);
    DictBelow(Candidate(g, project));
    DictBelow(Merge(g, project));
    MergedProfiles(g, project);
  }

  /** What a successful write validated is exactly what loading yields: after a write, putting the profiles back
      never changes anything. */
  lemma WrittenIsLoaded(g: Tree, existing: Tree, patch: Tree, valid: Tree -> bool)
    requires g.Dict? && existing.Dict? && RefusesBrokenRegistry(valid)
    requires WriteProject(g, existing, patch, valid).Saved?
    ensures var project := WriteProject(g, existing, patch, valid).project;
            && project == Merge(existing, patch) && valid(Candidate(g, project))
            && Effective(g, project) == Candidate(g, project)
  {
    var project := Merge(existing, patch);
    BrokenIsRefused(g, project);
    StripIsIdleIff(g, project);
  }
}
