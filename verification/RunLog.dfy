// run.py: the event log, the manifest and the crash sweep of a project's runs.
module RunLog {

  datatype Name = Finished | Failed | Interrupted | Paused | AwaitingHost | Progressed(kind: nat)

  datatype Event = Event(index: nat, phase: nat, name: Name)

  // A section's value; the agent-extraction section names its owner.
  datatype Section = AgentExtraction | OtherSection(id: nat)

  datatype Value = Owned(externalHost: bool) | Plain(id: nat)

  datatype Manifest = Missing | Unreadable | Sections(m: map<Section, Value>)

  datatype Run = Run(manifest: Manifest, events: seq<Event>)

  // ----- Specification -----

  datatype Status = NoEvents | Running | Ended(name: Name)

  predicate Terminal(n: Name) {
    !n.Progressed?
  }

  function StatusOf(events: seq<Event>): Status {
    if events == [] then NoEvents
    else if Terminal(events[|events| - 1].name) then Ended(events[|events| - 1].name)
    else Running
  }

  function Appended(r: Run, phase: nat, name: Name): Run {
    r.(events := r.events + [Event(|r.events|, phase, name)])
  }

  predicate ExternalHost(r: Run) {
    r.manifest.Sections? && AgentExtraction in r.manifest.m && r.manifest.m[AgentExtraction] == Owned(true)
  }

  /** The run ends without a terminal event although no outside host drives it. */
  predicate Orphaned(r: Run) {
    !ExternalHost(r) && StatusOf(r.events) == Running
  }

  function Swept(r: Run): Run {
    if Orphaned(r) then Appended(r, r.events[|r.events| - 1].phase, Interrupted) else r
  }

  /** The sections already written; a missing manifest has none. */
  function Present(m: Manifest): map<Section, Value> {
    if m.Sections? then m.m else map[]
  }

  /** Line `i` of the log carries number `i`. */
  ghost predicate Numbered(events: seq<Event>) {
    forall i :: 0 <= i < |events| ==> events[i].index == i
  }

  /** The events numbered above `after`. */
  function After(events: seq<Event>, after: int): seq<Event> {
    if events == [] then []
    else
      var e := events[|events| - 1];
      After(events[..|events| - 1], after) + if e.index > after then [e] else []
  }

  /** On a numbered log, reading from a number is reading from that line on. */
  lemma {:induction false} AfterIsSuffix(events: seq<Event>, after: int)
    requires Numbered(events) && -1 <= after < |events|
    ensures After(events, after) == events[after + 1..]
  {
    if events != [] {
      AfterOneMore(events, after);
      NumberedBefore(events);
      SuffixOneMore(events, after + 1);
      if after < |events| - 1 {
        AfterIsSuffix(events[..|events| - 1], after);
      } else {
        NothingAfter(events[..|events| - 1], after);
      }
    }
  }

  lemma SuffixOneMore(events: seq<Event>, from: nat)
    requires events != [] && from <= |events|
    ensures from < |events| ==> events[from..] == events[..|events| - 1][from..] + [events[|events| - 1]]
    ensures from == |events| ==> events[from..] == []
  {
  }

  lemma NumberedBefore(events: seq<Event>)
    requires Numbered(events) && events != []
    ensures Numbered(events[..|events| - 1]) && events[|events| - 1].index == |events| - 1
  {
  }

  lemma {:induction false} AfterOneMore(events: seq<Event>, after: int)
    requires events != [] && events[|events| - 1].index == |events| - 1
    ensures var before := After(events[..|events| - 1], after);
            After(events, after) == if |events| - 1 > after then before + [events[|events| - 1]] else before
  {
  }

  lemma {:induction false} NothingAfter(events: seq<Event>, after: int)
    requires Numbered(events) && |events| <= after + 1
    ensures After(events, after) == []
  {
    if events != [] {
      assert Numbered(events[..|events| - 1]);
      NothingAfter(events[..|events| - 1], after);
    }
  }

  // ----- The calls on one run -----

  // What the program does to one run.
  datatype Op = Ensure | Append(phase: nat, name: Name) | Update(sections: map<Section, Value>) | Sweep

  function Result(r: Run, op: Op): Run {
    match op
    case Ensure => if r.manifest == Missing then r.(manifest := Sections(map[])) else r
    case Append(phase, name) => Appended(r, phase, name)
    case Update(sections) =>
      if r.manifest == Unreadable || !(sections.Keys !! Present(r.manifest).Keys) then r
      else r.(manifest := Sections(Present(r.manifest) + sections))
    case Sweep => Swept(r)
  }

  // ----- The runs directory -----

  predicate IsLeast(s: set<nat>, m: nat) {
    m in s && forall other :: other in s ==> m <= other
  }

  datatype UpdateResult = Written | AlreadyPresent | BadManifest

  class Runs {
    var dirs: map<nat, Run>

    constructor ()
      ensures dirs == map[]
    {
      dirs := map[];
    }

    function RunAt(id: nat): Run
      reads this
    {
      if id in dirs then dirs[id] else Run(Missing, [])
    }

    /** ensure_run: an existing manifest is not replaced, a missing one becomes an empty one. */
    method EnsureRun(id: nat)
      modifies this
      ensures dirs == old(dirs)[id := Result(old(RunAt(id)), Ensure)]
      ensures dirs[id].events == old(RunAt(id)).events
      ensures old(RunAt(id)).manifest == Missing ==> dirs[id].manifest == Sections(map[])
      ensures old(RunAt(id)).manifest != Missing ==> dirs[id].manifest == old(RunAt(id)).manifest
    {
      var r := RunAt(id);
      dirs := dirs[id := if r.manifest == Missing then r.(manifest := Sections(map[])) else r];
    }

    method AppendEvent(id: nat, phase: nat, name: Name) returns (index: nat)
      modifies this
      ensures index == |old(RunAt(id)).events|
      ensures dirs == old(dirs)[id := Result(old(RunAt(id)), Append(phase, name))]
    {
      var r := RunAt(id);
      index := |r.events|;
      dirs := dirs[id := r.(events := r.events + [Event(index, phase, name)])];
    }

    method ReadEvents(id: nat, after: int) returns (out: seq<Event>)
      ensures out == After(RunAt(id).events, after)
    {
      out := [];
      var events := RunAt(id).events;
      for i := 0 to |events|
        invariant out == After(events[..i], after)
      {
        assert events[..i + 1][..i] == events[..i];
        if events[i].index > after {
          out := out + [events[i]];
        }
      }
      assert events[..|events|] == events;
    }

    /** Adds sections to the manifest; one that is already there refuses them all and writes nothing. */
    method UpdateManifest(id: nat, sections: map<Section, Value>) returns (r: UpdateResult)
      modifies this
      ensures r == BadManifest <==> old(RunAt(id)).manifest == Unreadable
      ensures r == AlreadyPresent
              <==> old(RunAt(id)).manifest != Unreadable && !(sections.Keys !! Present(old(RunAt(id)).manifest).Keys)
      ensures r != Written ==> dirs == old(dirs) && Result(old(RunAt(id)), Update(sections)) == old(RunAt(id))
      ensures r == Written ==> dirs == old(dirs)[id := Result(old(RunAt(id)), Update(sections))]
    {
      var run := RunAt(id);
      if run.manifest == Unreadable {
        return BadManifest;
      }
      var before := Present(run.manifest);
      var current, todo := before, sections.Keys;
      while todo != {}
        invariant todo <= sections.Keys
        invariant current.Keys == before.Keys + (sections.Keys - todo)
        invariant before.Keys !! sections.Keys - todo
        invariant forall k :: k in current ==> current[k] == if k in before then before[k] else sections[k]
      {
        var key :| key in todo;
        if key in current {
          assert key in before;
          return AlreadyPresent;
        }
        current := current[key := sections[key]];
        todo := todo - {key};
      }
      assert current == before + sections;
      dirs := dirs[id := run.(manifest := Sections(current))];
      return Written;
    }

    /** Stamps the run as interrupted if it is orphaned. */
    method SweepRun(id: nat) returns (orphan: bool)
      requires id in dirs
      modifies this
      ensures orphan <==> Orphaned(old(dirs)[id])
      ensures dirs == old(dirs)[id := Swept(old(dirs)[id])]
    {
      var r := dirs[id];
      orphan := Orphaned(r);
      if orphan {
        var index := AppendEvent(id, r.events[|r.events| - 1].phase, Interrupted);
      } else {
        assert dirs == dirs[id := r];
      }
    }

    /** Stamps every orphaned run as interrupted, in order of run id. */
    method MarkInterruptedRuns() returns (stamped: seq<nat>)
      modifies this
      ensures dirs == map id | id in old(dirs) :: Result(old(dirs)[id], Sweep)
      ensures forall id :: id in stamped <==> id in old(dirs) && Orphaned(old(dirs)[id])
      ensures forall i, j :: 0 <= i < j < |stamped| ==> stamped[i] < stamped[j]
    {
      stamped := [];
      ghost var was := dirs;
      var todo := dirs.Keys;
      while todo != {}
        invariant todo <= was.Keys
        invariant SweptBut(was, dirs, todo) && Stamps(was, todo, stamped)
      {
        ghost var least := Least(todo);
        var id: nat :| id in todo && IsLeast(todo, id);
        SweepOne(was, dirs, todo, stamped, id);
        var orphan := SweepRun(id);
        stamped := if orphan then stamped + [id] else stamped;
        todo := todo - {id};
      }
      AllSwept(was, dirs);
    }
  }

  /** All runs but those in `todo` have been swept. */
  ghost predicate SweptBut(was: map<nat, Run>, now: map<nat, Run>, todo: set<nat>) {
    now.Keys == was.Keys && forall id :: id in now ==> now[id] == if id in todo then was[id] else Swept(was[id])
  }

  /** The orphaned runs outside `todo`, in order, all before those in `todo`. */
  ghost predicate Stamps(was: map<nat, Run>, todo: set<nat>, stamped: seq<nat>) {
    && (forall id :: id in stamped <==> id in was && id !in todo && Orphaned(was[id]))
    && (forall i, j :: 0 <= i < j < |stamped| ==> stamped[i] < stamped[j])
    && (forall i, other :: 0 <= i < |stamped| && other in todo ==> stamped[i] < other)
  }

  lemma SweepOne(was: map<nat, Run>, now: map<nat, Run>, todo: set<nat>, stamped: seq<nat>, id: nat)
    requires todo <= was.Keys && SweptBut(was, now, todo) && Stamps(was, todo, stamped)
    requires IsLeast(todo, id)
    ensures id in now && now[id] == was[id]
    ensures SweptBut(was, now[id := Swept(was[id])], todo - {id})
    ensures Stamps(was, todo - {id}, if Orphaned(was[id]) then stamped + [id] else stamped)
  {
  }

  lemma AllSwept(was: map<nat, Run>, now: map<nat, Run>)
    requires SweptBut(was, now, {})
    ensures now == map id | id in was :: Result(was[id], Sweep)
  {
    assert forall id :: id in now ==> now[id] == Swept(was[id]);
  }

  lemma {:induction false} Least(s: set<nat>) returns (least: nat)
    requires s != {}
    ensures IsLeast(s, least)
  {
    var v :| v in s;
    if s == {v} {
      least := v;
    } else {
      var m := Least(s - {v});
      least := if m < v then m else v;
      forall other | other in s
        ensures least <= other
      {
        if other != v {
          assert other in s - {v};
        }
      }
    }
  }

  // ----- Laws -----

  /** A sweep leaves a run alone that has no events, or that ended in one of the five terminal events, or that an
      outside host drives; every other run gets one more line: interrupted, in the phase of its last line. */
  lemma SweptIs(r: Run)
    ensures r.events == [] ==> Swept(r) == r
    ensures r.events != [] && r.events[|r.events| - 1].name in [Finished, Failed, Interrupted, Paused, AwaitingHost]
            ==> Swept(r) == r
    ensures r.manifest.Sections? && AgentExtraction in r.manifest.m && r.manifest.m[AgentExtraction] == Owned(true)
            ==> Swept(r) == r
    ensures && r.events != []
            && r.events[|r.events| - 1].name !in [Finished, Failed, Interrupted, Paused, AwaitingHost]
            && !(r.manifest.Sections? && AgentExtraction in r.manifest.m &&
                 r.manifest.m[AgentExtraction] == Owned(true))
            ==> && Swept(r).manifest == r.manifest
                && Swept(r).events
                   == r.events + [Event(|r.events|, r.events[|r.events| - 1].phase, Interrupted)]
  {
    if r.events != [] {
      var name := r.events[|r.events| - 1].name;
      assert name.Progressed? <==> name !in [Finished, Failed, Interrupted, Paused, AwaitingHost];
    }
  }

  /** A run reads as running exactly if its last line is none of those five. */
  lemma StatusIs(events: seq<Event>)
    ensures StatusOf(events) == NoEvents <==> events == []
    ensures StatusOf(events) == Running
            <==> events != [] &&
                 events[|events| - 1].name !in [Finished, Failed, Interrupted, Paused, AwaitingHost]
    ensures StatusOf(events).Ended? ==> events != [] && StatusOf(events).name == events[|events| - 1].name
  {
    if events != [] {
      var name := events[|events| - 1].name;
      assert name.Progressed? <==> name !in [Finished, Failed, Interrupted, Paused, AwaitingHost];
    }
  }

  /** Sections are added to those that are there, or none is if one of them is there or the manifest is unreadable. */
  lemma UpdatedIs(r: Run, sections: map<Section, Value>)
    ensures Result(r, Update(sections)).events == r.events
    ensures r.manifest == Unreadable ==> Result(r, Update(sections)) == r
    ensures r.manifest == Missing ==> Result(r, Update(sections)).manifest == Sections(sections)
    ensures r.manifest.Sections?
            ==> Result(r, Update(sections)).manifest
                == if sections.Keys !! r.manifest.m.Keys then Sections(r.manifest.m + sections) else r.manifest
  {
    assert map[] + sections == sections;
  }

  /** Ensuring a run writes an empty manifest exactly where there is none. */
  lemma EnsuredIs(r: Run)
    ensures Result(r, Ensure).events == r.events
    ensures Result(r, Ensure).manifest == if r.manifest == Missing then Sections(map[]) else r.manifest
  {
  }

  /** An appended line carries the number of lines before it. */
  lemma AppendedIs(r: Run, phase: nat, name: Name)
    ensures Result(r, Append(phase, name)).events == r.events + [Event(|r.events|, phase, name)]
    ensures Result(r, Append(phase, name)).manifest == r.manifest
  {
  }

  /** The events after a number are those numbered above it, in order: adding one appends it or not. */
  lemma AfterIs(events: seq<Event>, e: Event, after: int)
    ensures After([], after) == []
    ensures After(events + [e], after) == if e.index > after then After(events, after) + [e] else After(events, after)
  {
    assert (events + [e])[..|events|] == events;
  }

  /** After a sweep no run without an outside host is running, and sweeping again changes nothing. */
  lemma SweepSettles(r: Run)
    ensures !Orphaned(Swept(r)) && Swept(Swept(r)) == Swept(r)
    ensures Swept(r).manifest == r.manifest && r.events <= Swept(r).events
    ensures Numbered(r.events) ==> Numbered(Swept(r).events)
    ensures ExternalHost(r) || StatusOf(r.events) != Running ==> Swept(r) == r
  {
  }

  function Outcome(r: Run, ops: seq<Op>): Run {
    if ops == [] then r else Result(Outcome(r, ops[..|ops| - 1]), ops[|ops| - 1])
  }

  /** Over any sequence of calls a section keeps the value it was first written with, and the log only grows
      and stays numbered. */
  lemma {:induction false} HistoryKeeps(r: Run, ops: seq<Op>, k: Section)
    ensures k in Present(r.manifest)
            ==> k in Present(Outcome(r, ops).manifest) && Present(Outcome(r, ops).manifest)[k] == Present(r.manifest)[k]
    ensures r.events <= Outcome(r, ops).events
    ensures Numbered(r.events) ==> Numbered(Outcome(r, ops).events)
  {
    if ops != [] {
      var n := |ops| - 1;
      HistoryKeeps(r, ops[..n], k);
      if ops[n].Sweep? {
        SweepSettles(Outcome(r, ops[..n]));
      }
    }
  }
}
