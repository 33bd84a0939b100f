// When a write of project settings is refused, with the forbidden names looked for at every depth.
module WriteLaws {
  import opened Prelude
  import opened ConfigMerge
  import opened ConfigClamp
  import opened ConfigLoad

  // ----- Anywhere in a tree -----

  // One hop down a tree: to the value of a key, or to an item of a list.
  datatype Hop = Member(key: Key) | Item(index: nat)

  function Reach(t: Tree, path: seq<Hop>): Option<Tree>
    decreases |path|
  {
    if path == [] then Some(t)
    else
      match path[0]
      case Member(k) => if t.Dict? && k in t.m then Reach(t.m[k], path[1..]) else None
      case Item(i) => if t.List? && i < |t.items| then Reach(t.items[i], path[1..]) else None
  }

  /** Some mapping inside `t`, at any depth and also inside lists, has this key. */
  ghost predicate Mentions(t: Tree, path: seq<Hop>, k: Key) {
    Reach(t, path).Some? && Reach(t, path).value.Dict? && k in Reach(t, path).value.m
  }

  ghost predicate HoldsSecret(t: Tree) {
    exists path, k :: Mentions(t, path, k) && k.Secret?
  }

  ghost predicate HoldsRouting(t: Tree) {
    exists path, k :: Mentions(t, path, k) && (k.Profiles? || k.Routing?)
  }

  lemma MentionsBelow(t: Tree, hop: Hop, path: seq<Hop>, k: Key)
    requires Reach(t, [hop]).Some?
    ensures Mentions(t, [hop] + path, k) <==> Mentions(Reach(t, [hop]).value, path, k)
  {
    assert ([hop] + path)[1..] == path && [hop][1..] == [];
  }

  lemma MentionsHere(t: Tree, path: seq<Hop>, k: Key)
    requires Mentions(t, path, k)
    ensures path == [] ==> t.Dict? && k in t.m
    ensures path != [] ==> Reach(t, [path[0]]).Some? && Mentions(Reach(t, [path[0]]).value, path[1..], k)
  {
    if path != [] {
      assert [path[0]] + path[1..] == path && [path[0]][1..] == [];
    }
  }

  lemma {:induction false} NoSecretMentioned(t: Tree, path: seq<Hop>, k: Key)
    requires SecretFree(t) && Mentions(t, path, k)
    ensures !k.Secret?
    decreases |path|
  {
    MentionsHere(t, path, k);
    if path != [] {
      assert [path[0]][1..] == [];
      NoSecretMentioned(Reach(t, [path[0]]).value, path[1..], k);
    }
  }

  lemma {:induction false} SecretIsMentioned(t: Tree) returns (path: seq<Hop>, k: Key)
    requires !SecretFree(t)
    ensures Mentions(t, path, k) && k.Secret?
    decreases t
  {
    if t.Dict? {
      k :| k in t.m && !(!k.Secret? && SecretFree(t.m[k]));
      path := [];
      if !k.Secret? {
        var hop := Member(k);
        assert Reach(t, [hop]) == Some(t.m[hop.key]) by {
          assert [hop][1..] == [];
        }
        path, k := SecretIsMentioned(t.m[hop.key]);
        MentionsBelow(t, hop, path, k);
        path := [hop] + path;
      }
    } else {
      var i :| 0 <= i < |t.items| && !SecretFree(t.items[i]);
      assert Reach(t, [Item(i)]) == Some(t.items[i]) by {
        assert [Item(i)][1..] == [];
      }
      path, k := SecretIsMentioned(t.items[i]);
      MentionsBelow(t, Item(i), path, k);
      path := [Item(i)] + path;
    }
  }

  lemma {:induction false} NoRoutingMentioned(t: Tree, path: seq<Hop>, k: Key)
    requires RoutingFree(t) && Mentions(t, path, k)
    ensures !k.Profiles? && !k.Routing?
    decreases |path|
  {
    MentionsHere(t, path, k);
    if path != [] {
      assert [path[0]][1..] == [];
      NoRoutingMentioned(Reach(t, [path[0]]).value, path[1..], k);
    }
  }

  lemma {:induction false} RoutingIsMentioned(t: Tree) returns (path: seq<Hop>, k: Key)
    requires !RoutingFree(t)
    ensures Mentions(t, path, k) && (k.Profiles? || k.Routing?)
    decreases t
  {
    if t.Dict? {
      k :| k in t.m && !(!DefinesProfile(k) && RoutingFree(t.m[k]));
      path := [];
      if !DefinesProfile(k) {
        var hop := Member(k);
        assert Reach(t, [hop]) == Some(t.m[hop.key]) by {
          assert [hop][1..] == [];
        }
        path, k := RoutingIsMentioned(t.m[hop.key]);
        MentionsBelow(t, hop, path, k);
        path := [hop] + path;
      }
    } else {
      var i :| 0 <= i < |t.items| && !RoutingFree(t.items[i]);
      assert Reach(t, [Item(i)]) == Some(t.items[i]) by {
        assert [Item(i)][1..] == [];
      }
      path, k := RoutingIsMentioned(t.items[i]);
      MentionsBelow(t, Item(i), path, k);
      path := [Item(i)] + path;
    }
  }

  /** The two checks find a forbidden name at any depth, and only those. */
  lemma ChecksFindAll(t: Tree)
    ensures SecretFree(t) <==> !HoldsSecret(t)
    ensures RoutingFree(t) <==> !HoldsRouting(t)
  {
    if HoldsSecret(t) {
      var path, k :| Mentions(t, path, k) && k.Secret?;
      if SecretFree(t) {
        NoSecretMentioned(t, path, k);
      }
    }
    if HoldsRouting(t) {
      var path, k :| Mentions(t, path, k) && (k.Profiles? || k.Routing?);
      if RoutingFree(t) {
        NoRoutingMentioned(t, path, k);
      }
    }
    if !SecretFree(t) {
      var path, k := SecretIsMentioned(t);
    }
    if !RoutingFree(t) {
      var path, k := RoutingIsMentioned(t);
    }
  }

  // ----- Writing -----

  /** What the write checks: the patch first, then the project settings with the patch over them. */
  ghost predicate Sound(t: Tree) {
    !HoldsSecret(t) && !HoldsRouting(Below(t, Llm))
  }

  /** A write is saved exactly if the patch is a mapping, neither it nor the result holds a secret or, under the model
      settings, redirects a profile, and the effective settings are valid; what is saved is the patch over what there
      was. */
  lemma SavedIff(g: Tree, existing: Tree, patch: Tree, valid: Tree -> bool)
    ensures var project := Merge(existing, patch);
            && (WriteProject(g, existing, patch, valid).Saved?
                <==> patch.Dict? && Sound(patch) && Sound(project) && valid(Candidate(g, project)))
            && (WriteProject(g, existing, patch, valid).Saved?
                ==> WriteProject(g, existing, patch, valid).project == project)
  {
    ChecksFindAll(patch);
    ChecksFindAll(Below(patch, Llm));
    ChecksFindAll(Merge(existing, patch));
    ChecksFindAll(Below(Merge(existing, patch), Llm));
  }

  /** Why a write is refused. */
  lemma RefusedBecause(g: Tree, existing: Tree, patch: Tree, valid: Tree -> bool)
    ensures var r, project := WriteProject(g, existing, patch, valid), Merge(existing, patch);
            && (r == Refused(NotAMapping) <==> !patch.Dict?)
            && (r == Refused(RawSecret)
                <==> patch.Dict? && (HoldsSecret(patch) || (Sound(patch) && HoldsSecret(project))))
            && (r == Refused(ProfileRouting)
                <==> patch.Dict? && !HoldsSecret(patch)
                     && (HoldsRouting(Below(patch, Llm))
                         || (!HoldsSecret(project) && HoldsRouting(Below(project, Llm)))))
            && (r == Refused(Invalid)
                <==> patch.Dict? && Sound(patch) && Sound(project) && !valid(Candidate(g, project)))
  {
    ChecksFindAll(patch);
    ChecksFindAll(Below(patch, Llm));
    ChecksFindAll(Merge(existing, patch));
    ChecksFindAll(Below(Merge(existing, patch), Llm));
  }
}
