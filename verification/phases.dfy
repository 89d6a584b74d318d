/**
 Selection of a target's CocoaPods shell-script phases. Both selections of the
 source are the same pipeline: `compactMap` the build phases to the shell-script
 phases, then `filter` on a test of the optional name (a missing name never
 passes). `ScriptsWhere` is that pipeline once; the marker and user-phase
 selections instantiate it, and `IsMarkerPhase`/`IsUserPhase` say, phase by
 phase of the original list, which phases are meant.
 */
module PhaseSelection {
  import opened Wrappers
  import opened Text
  import opened Pipelines
  import opened XcodeModel

  const CopyPodsResources := "Copy Pods Resources"
  const CheckPodsManifest := "Check Pods Manifest.lock"
  const EmbedPodsFrameworks := "Embed Pods Frameworks"

  /** The three markers `manageTarget` looks for, in the order it looks for them. */
  const PodsPhaseMarkers: seq<string> := [CopyPodsResources, CheckPodsManifest, EmbedPodsFrameworks]

  const UserPhasePrefix := "[CP-User] "

  /** `$0 as? PBXShellScriptBuildPhase` */
  function AsShellScript(p: BuildPhase): Option<ShellScriptPhase>
  {
    match p
    case ShellScript(s) => Some(s)
    case _ => None
  }

  /** `buildPhases.compactMap { $0 as? PBXShellScriptBuildPhase }.filter(keep)` */
  function ScriptsWhere(phases: seq<BuildPhase>, keep: ShellScriptPhase -> bool): seq<ShellScriptPhase>
  {
    Filter(CompactMap(phases, AsShellScript), keep)
  }

  /** The shell-script phase at a position of the original list, when it passes `keep`. */
  function SelectScript(keep: ShellScriptPhase -> bool): BuildPhase -> Option<ShellScriptPhase>
  {
    (p: BuildPhase) => if p.ShellScript? && keep(p.script) then Some(p.script) else None
  }

  /** The positions of the original list holding a shell-script phase that passes `keep`. */
  ghost function ScriptPositions(phases: seq<BuildPhase>, keep: ShellScriptPhase -> bool): set<int>
  {
    set i | 0 <= i < |phases| && phases[i].ShellScript? && keep(phases[i].script)
  }

  /** The pipeline keeps exactly the shell-script phases that pass `keep`, in their original order. */
  lemma ScriptsWhereIsOnePass(phases: seq<BuildPhase>, keep: ShellScriptPhase -> bool)
    ensures ScriptsWhere(phases, keep) == CompactMap(phases, SelectScript(keep))
  {
    FilterCompactMap(phases, AsShellScript, keep, SelectScript(keep));
  }

  lemma ScriptsWhereMembers(phases: seq<BuildPhase>, keep: ShellScriptPhase -> bool, s: ShellScriptPhase)
    ensures s in ScriptsWhere(phases, keep) <==> ShellScript(s) in phases && keep(s)
  {
    ScriptsWhereIsOnePass(phases, keep);
    CompactMapMembers(phases, SelectScript(keep), s);
    if ShellScript(s) in phases && keep(s) {
      assert SelectScript(keep)(ShellScript(s)) == Some(s);
    }
  }

  /** Selecting from two lists one after the other gives the two selections one after the other. */
  lemma ScriptsWhereOrder(a: seq<BuildPhase>, b: seq<BuildPhase>, keep: ShellScriptPhase -> bool)
    ensures ScriptsWhere(a + b, keep) == ScriptsWhere(a, keep) + ScriptsWhere(b, keep)
  {
    ScriptsWhereIsOnePass(a + b, keep);
    ScriptsWhereIsOnePass(a, keep);
    ScriptsWhereIsOnePass(b, keep);
    CompactMapConcat(a, b, SelectScript(keep));
  }

  lemma ScriptsWhereCount(phases: seq<BuildPhase>, keep: ShellScriptPhase -> bool)
    ensures |ScriptsWhere(phases, keep)| == |ScriptPositions(phases, keep)|
  {
    ScriptsWhereIsOnePass(phases, keep);
    CompactMapLength(phases, SelectScript(keep));
    assert PresentAt(phases, SelectScript(keep)) == ScriptPositions(phases, keep);
  }

  /** `$0.name?.contains(phaseName) ?? false` */
  function NameContains(marker: string): ShellScriptPhase -> bool
  {
    (s: ShellScriptPhase) => s.name.Some? && Contains(s.name.value, marker)
  }

  /** `$0.name?.hasPrefix("[CP-User] ") ?? false` */
  predicate HasUserName(s: ShellScriptPhase)
  {
    s.name.Some? && HasPrefix(s.name.value, UserPhasePrefix)
  }

  /** A phase `manageShellScriptPhase` selects for `marker`: a named shell script whose name has the marker somewhere in it. */
  ghost predicate IsMarkerPhase(p: BuildPhase, marker: string)
  {
    p.ShellScript? && p.script.name.Some? && exists i: nat :: OccursAt(p.script.name.value, marker, i)
  }

  /** A phase `manageUserShellScriptPhase` selects: a named shell script whose name starts with the user prefix. */
  predicate IsUserPhase(p: BuildPhase)
  {
    p.ShellScript? && p.script.name.Some? && HasPrefix(p.script.name.value, UserPhasePrefix)
  }

  /** The phases `manageShellScriptPhase(target, marker)` selects. */
  function PhasesContaining(phases: seq<BuildPhase>, marker: string): seq<ShellScriptPhase>
  {
    ScriptsWhere(phases, NameContains(marker))
  }

  /** The phases `manageUserShellScriptPhase(target)` selects. */
  function UserPhases(phases: seq<BuildPhase>): seq<ShellScriptPhase>
  {
    ScriptsWhere(phases, HasUserName)
  }

  ghost function MarkerPositions(phases: seq<BuildPhase>, marker: string): set<int>
  {
    set i | 0 <= i < |phases| && IsMarkerPhase(phases[i], marker)
  }

  ghost function UserPositions(phases: seq<BuildPhase>): set<int>
  {
    set i | 0 <= i < |phases| && IsUserPhase(phases[i])
  }

  lemma NameContainsIsMarker(p: BuildPhase, marker: string)
    ensures (p.ShellScript? && NameContains(marker)(p.script)) <==> IsMarkerPhase(p, marker)
  {
    if p.ShellScript? && p.script.name.Some? {
      ContainsIffOccurs(p.script.name.value, marker);
    }
  }

  /**
   The marker selection holds exactly the named shell-script phases whose name
   contains the marker; a phase of another kind or without a name is never selected.
   */
  lemma PhasesContainingMembers(phases: seq<BuildPhase>, marker: string, s: ShellScriptPhase)
    ensures s in PhasesContaining(phases, marker) <==> ShellScript(s) in phases && IsMarkerPhase(ShellScript(s), marker)
  {
    ScriptsWhereMembers(phases, NameContains(marker), s);
    NameContainsIsMarker(ShellScript(s), marker);
  }

  /** The marker selection keeps the order of `buildPhases`: it is one entry per selected phase, front to back. */
  lemma PhasesContainingOrder(a: seq<BuildPhase>, b: seq<BuildPhase>, p: BuildPhase, marker: string)
    ensures PhasesContaining(a + b, marker) == PhasesContaining(a, marker) + PhasesContaining(b, marker)
    ensures PhasesContaining([p], marker) == if IsMarkerPhase(p, marker) then [p.script] else []
  {
    ScriptsWhereOrder(a, b, NameContains(marker));
    ScriptsWhereIsOnePass([p], NameContains(marker));
    NameContainsIsMarker(p, marker);
    assert [p][1..] == [];
  }

  /** The count `manageShellScriptPhase` reports is the number of positions holding a marker phase. */
  lemma PhasesContainingCount(phases: seq<BuildPhase>, marker: string)
    ensures |PhasesContaining(phases, marker)| == |MarkerPositions(phases, marker)|
  {
    ScriptsWhereCount(phases, NameContains(marker));
    forall i | 0 <= i < |phases| {
      NameContainsIsMarker(phases[i], marker);
    }
    assert ScriptPositions(phases, NameContains(marker)) == MarkerPositions(phases, marker);
  }

  /** The user selection holds exactly the named shell-script phases whose name starts with `[CP-User] `. */
  lemma UserPhasesMembers(phases: seq<BuildPhase>, s: ShellScriptPhase)
    ensures s in UserPhases(phases) <==> ShellScript(s) in phases && IsUserPhase(ShellScript(s))
  {
    ScriptsWhereMembers(phases, HasUserName, s);
  }

  /** The user selection keeps the order of `buildPhases`. */
  lemma UserPhasesOrder(a: seq<BuildPhase>, b: seq<BuildPhase>, p: BuildPhase)
    ensures UserPhases(a + b) == UserPhases(a) + UserPhases(b)
    ensures UserPhases([p]) == if IsUserPhase(p) then [p.script] else []
  {
    ScriptsWhereOrder(a, b, HasUserName);
    ScriptsWhereIsOnePass([p], HasUserName);
    assert [p][1..] == [];
  }

  /** The count `manageUserShellScriptPhase` reports is the number of positions holding a user phase. */
  lemma UserPhasesCount(phases: seq<BuildPhase>)
    ensures |UserPhases(phases)| == |UserPositions(phases)|
  {
    ScriptsWhereCount(phases, HasUserName);
    assert ScriptPositions(phases, HasUserName) == UserPositions(phases);
  }
}
