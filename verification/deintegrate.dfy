/**
 What `manageProject` does with a loaded project. Every removal in the source is
 still an empty loop body, so a run selects, counts and reports, and changes
 nothing: the operations below are functions of the project that return one
 report per progress message the run prints, in the order it prints them, and
 no project. The per-file messages of the file-reference pass are gathered in
 one `FileRefsListed` report. The project is never saved either, so these
 reports are all a run produces.
 */
module Deintegration {
  import opened Wrappers
  import opened Pipelines
  import opened XcodeModel
  import opened GroupTree
  import opened PhaseSelection

  /** One progress report of a run, with the counts it states. */
  datatype Report =
    | ProjectStarted(projectName: string)
    | TargetStarted(targetName: string)
    | PhasesDeleted(marker: string, count: nat)
    | UserPhasesDeleted(count: nat)
    | FileRefsListed(files: seq<FileRef>)
    | EmptyGroupsDeleted(groupName: string, count: nat)

  const PodsGroupName := "Pods"
  const FrameworksGroupName := "Frameworks"

  /** `manageShellScriptPhase(target, marker)`: reports how many phases of the target carry the marker. */
  function ManageShellScriptPhase(t: Target, marker: string): (r: Report)
    ensures r == PhasesDeleted(marker, |MarkerPositions(t.buildPhases, marker)|)
  {
    PhasesContainingCount(t.buildPhases, marker);
    PhasesDeleted(marker, |PhasesContaining(t.buildPhases, marker)|)
  }

  /** `manageUserShellScriptPhase(target)`: reports how many phases of the target are user phases. */
  function ManageUserShellScriptPhase(t: Target): (r: Report)
    ensures r == UserPhasesDeleted(|UserPositions(t.buildPhases)|)
  {
    UserPhasesCount(t.buildPhases);
    UserPhasesDeleted(|UserPhases(t.buildPhases)|)
  }

  /** `manageShellScriptPhase(target, marker)` for each marker in turn: one count per marker, in marker order. */
  function MarkerReports(t: Target, markers: seq<string>): (log: seq<Report>)
    ensures |log| == |markers|
    ensures forall k :: 0 <= k < |markers| ==>
      log[k] == PhasesDeleted(markers[k], |MarkerPositions(t.buildPhases, markers[k])|)
  {
    if markers == [] then [] else [ManageShellScriptPhase(t, markers[0])] + MarkerReports(t, markers[1..])
  }

  /** `manageTarget(target)`: the target's name, then one count per marker in marker order, then the user-phase count. */
  function ManageTarget(t: Target): (log: seq<Report>)
    ensures |log| == 5 && log[0] == TargetStarted(t.name)
  {
    [TargetStarted(t.name)] + MarkerReports(t, PodsPhaseMarkers) + [ManageUserShellScriptPhase(t)]
  }

  /** After the name, one count per marker in marker order, each the number of positions holding a marker phase, then the user-phase count. */
  lemma ManageTargetCounts(t: Target)
    ensures forall k :: 0 <= k < |PodsPhaseMarkers| ==>
      ManageTarget(t)[k + 1] == PhasesDeleted(PodsPhaseMarkers[k], |MarkerPositions(t.buildPhases, PodsPhaseMarkers[k])|)
    ensures ManageTarget(t)[4] == UserPhasesDeleted(|UserPositions(t.buildPhases)|)
  {
  }

  function FileRefsOf(g: Group): seq<FileRef>
  {
    g.fileRefs
  }

  /** `(mainGroup.allSubGroups + [mainGroup]).flatMap { $0.fileRefs }` */
  function ProjectFileRefs(main: Group): seq<FileRef>
  {
    FlatMap(Descendants(main) + [main], FileRefsOf)
  }

  /** The collected file references: those of the groups below the main group in `allSubGroups` order, then the main group's own. */
  lemma ProjectFileRefsOrder(main: Group)
    ensures ProjectFileRefs(main) == FlatMap(Descendants(main), FileRefsOf) + main.fileRefs
  {
    FlatMapConcat(Descendants(main), [main], FileRefsOf);
    assert [main][1..] == [];
  }

  /** A file reference is collected exactly when it is a direct file reference of the main group or of a group below it. */
  lemma ProjectFileRefsMembers(main: Group, f: FileRef)
    ensures f in ProjectFileRefs(main) <==> f in main.fileRefs || exists d :: StrictlyBelow(d, main) && f in d.fileRefs
  {
    var below := Descendants(main);
    ProjectFileRefsOrder(main);
    FlatMapMembers(below, FileRefsOf, f);
    if i :| 0 <= i < |below| && f in FileRefsOf(below[i]) {
      DescendantsMembers(main, below[i]);
    }
    if d :| StrictlyBelow(d, main) && f in d.fileRefs {
      DescendantsMembers(main, d);
      var i :| 0 <= i < |below| && below[i] == d;
      assert f in FileRefsOf(below[i]);
    }
  }

  /** No group of the tree rooted at `main`, `main` included, has a file reference. */
  ghost predicate TreeHasNoFileRefs(main: Group)
  {
    main.fileRefs == [] && forall d :: StrictlyBelow(d, main) ==> d.fileRefs == []
  }

  lemma ProjectFileRefsEmpty(main: Group)
    ensures ProjectFileRefs(main) == [] <==> TreeHasNoFileRefs(main)
  {
    if ProjectFileRefs(main) != [] {
      var f := ProjectFileRefs(main)[0];
      ProjectFileRefsMembers(main, f);
    }
    if !TreeHasNoFileRefs(main) {
      if main.fileRefs != [] {
        ProjectFileRefsMembers(main, main.fileRefs[0]);
      } else {
        var d :| StrictlyBelow(d, main) && d.fileRefs != [];
        ProjectFileRefsMembers(main, d.fileRefs[0]);
      }
    }
  }

  function HasName(groupName: string): Group -> bool
  {
    (g: Group) => g.name == Some(groupName)
  }

  /** `mainGroup.allSubGroups.filter { $0.name == groupName }.filter(empty)`, for any emptiness test `empty`. */
  function NamedGroupsWhere(main: Group, groupName: string, empty: Group -> bool): seq<Group>
  {
    Filter(Filter(Descendants(main), HasName(groupName)), empty)
  }

  /** `mainGroup.allSubGroups.filter { $0.name == groupName }.filter { $0.isEmpty }` */
  function NamedEmptyGroups(main: Group, groupName: string): seq<Group>
  {
    NamedGroupsWhere(main, groupName, IsEmpty)
  }

  /**
   Whatever the emptiness test, a group is selected exactly when it lies strictly
   below the main group, carries the name, and passes the test.
   */
  lemma NamedGroupsWhereMembers(main: Group, groupName: string, empty: Group -> bool, g: Group)
    ensures g in NamedGroupsWhere(main, groupName, empty) <==>
      StrictlyBelow(g, main) && g.name == Some(groupName) && empty(g)
  {
    DescendantsMembers(main, g);
    var below := Descendants(main);
    var named := Filter(below, HasName(groupName));
    if g in below && g.name == Some(groupName) {
      var i :| 0 <= i < |below| && below[i] == g;
      assert g in named;
      if empty(g) {
        var j :| 0 <= j < |named| && named[j] == g;
        assert g in Filter(named, empty);
      }
    }
  }

  /** Because `isEmpty` is always false, no group is ever selected, whatever the tree and the name. */
  lemma NoEmptyGroupSelected(main: Group, groupName: string)
    ensures NamedEmptyGroups(main, groupName) == []
  {
    FilterRejectsAll(Filter(Descendants(main), HasName(groupName)), IsEmpty);
  }

  /** `deleteEmptyGroup(project, groupName)`: nothing without a main group, otherwise a report of zero groups. */
  function DeleteEmptyGroup(p: Project, groupName: string): (log: seq<Report>)
    ensures p.mainGroup.None? ==> log == []
    ensures p.mainGroup.Some? ==> log == [EmptyGroupsDeleted(groupName, 0)]
  {
    match p.mainGroup
    case None => []
    case Some(main) =>
      NoEmptyGroupSelected(main, groupName);
      [EmptyGroupsDeleted(groupName, |NamedEmptyGroups(main, groupName)|)]
  }

  /**
   `deletePodsFileReferences(project)`: nothing without a main group or when the
   tree has no file reference; otherwise every collected file reference is listed
   and the `Pods` and then the `Frameworks` empty-group reports follow.
   */
  function DeletePodsFileReferences(p: Project): (log: seq<Report>)
    ensures log == [] <==> p.mainGroup.None? || ProjectFileRefs(p.mainGroup.value) == []
    ensures log != [] ==> log == [FileRefsListed(ProjectFileRefs(p.mainGroup.value)),
                                  EmptyGroupsDeleted(PodsGroupName, 0),
                                  EmptyGroupsDeleted(FrameworksGroupName, 0)]
  {
    match p.mainGroup
    case None => []
    case Some(main) =>
      var files := ProjectFileRefs(main);
      if files == [] then []
      else [FileRefsListed(files)] + DeleteEmptyGroup(p, PodsGroupName) + DeleteEmptyGroup(p, FrameworksGroupName)
  }

  /** `manageProject(project)`: the project's name, then every target in declaration order, then the project-wide file-reference pass. */
  function ManageProject(p: Project): (log: seq<Report>)
    ensures |log| == 1 + 5 * |p.targets| + |DeletePodsFileReferences(p)|
    ensures log[0] == ProjectStarted(p.name)
  {
    ManageTargetsWidth(p.targets);
    FlatMapLength(p.targets, ManageTarget, 5);
    [ProjectStarted(p.name)] + FlatMap(p.targets, ManageTarget) + DeletePodsFileReferences(p)
  }

  /** Every target yields a block of five reports. */
  lemma ManageTargetsWidth(ts: seq<Target>)
    ensures forall i :: 0 <= i < |ts| ==> |ManageTarget(ts[i])| == 5
  {
  }

  /** After the project report come the targets' blocks, and the file-reference pass follows the last block. */
  lemma ManageProjectShape(p: Project)
    ensures ManageProject(p)[1 .. 1 + 5 * |p.targets|] == FlatMap(p.targets, ManageTarget)
    ensures ManageProject(p)[1 + 5 * |p.targets|..] == DeletePodsFileReferences(p)
  {
    var targetsLog, tail := FlatMap(p.targets, ManageTarget), DeletePodsFileReferences(p);
    ManageTargetsWidth(p.targets);
    FlatMapLength(p.targets, ManageTarget, 5);
    assert ManageProject(p) == [ProjectStarted(p.name)] + targetsLog + tail;
  }

  /** The reports of target `k` are the `k`-th block of five after the project report, so targets are handled in declaration order. */
  lemma ManageProjectLayout(p: Project, k: nat)
    requires k < |p.targets|
    ensures ManageProject(p)[1 + 5 * k .. 1 + 5 * k + 5] == ManageTarget(p.targets[k])
  {
    TargetBlock(p.name, p.targets, k, DeletePodsFileReferences(p));
  }

  lemma TargetBlock(name: string, ts: seq<Target>, k: nat, tail: seq<Report>)
    requires k < |ts|
    ensures 1 + 5 * k + 5 <= |[ProjectStarted(name)] + FlatMap(ts, ManageTarget) + tail|
    ensures ([ProjectStarted(name)] + FlatMap(ts, ManageTarget) + tail)[1 + 5 * k .. 1 + 5 * k + 5] == ManageTarget(ts[k])
  {
    ManageTargetsWidth(ts);
    FlatMapBlockOfWidth([ProjectStarted(name)], ts, ManageTarget, 5, k, tail);
  }

  /** A target's reports are its name, phase counts and the user-phase count, nothing else. */
  lemma TargetReportKinds(t: Target, r: Report)
    requires r in ManageTarget(t)
    ensures r.TargetStarted? || r.PhasesDeleted? || r.UserPhasesDeleted?
  {
    var log := ManageTarget(t);
    ManageTargetCounts(t);
    var i :| 0 <= i < 5 && log[i] == r;
    if 1 <= i < 4 {
      assert log[i] == PhasesDeleted(PodsPhaseMarkers[i - 1], |MarkerPositions(t.buildPhases, PodsPhaseMarkers[i - 1])|);
    }
  }

  /** Every empty-group count a run reports is zero. */
  lemma EmptyGroupCountsAreZero(p: Project)
    ensures forall r :: r in ManageProject(p) && r.EmptyGroupsDeleted? ==> r.count == 0
  {
    var targetsLog, tail := FlatMap(p.targets, ManageTarget), DeletePodsFileReferences(p);
    assert ManageProject(p) == [ProjectStarted(p.name)] + targetsLog + tail;
    forall r: Report | r in [ProjectStarted(p.name)] + targetsLog + tail && r.EmptyGroupsDeleted?
      ensures r.count == 0
    {
      if r in targetsLog {
        FlatMapMembers(p.targets, ManageTarget, r);
        var i :| 0 <= i < |p.targets| && r in ManageTarget(p.targets[i]);
        TargetReportKinds(p.targets[i], r);
      }
    }
  }

  /** No phase of the target is a marker phase, for any of the three markers, or a user phase. */
  ghost predicate NoPodsPhasesIn(t: Target)
  {
    forall m, ph :: m in PodsPhaseMarkers && ph in t.buildPhases ==> !IsMarkerPhase(ph, m) && !IsUserPhase(ph)
  }

  ghost predicate NoPodsPhases(p: Project)
  {
    forall t :: t in p.targets ==> NoPodsPhasesIn(t)
  }

  lemma NoMarkerPositions(phases: seq<BuildPhase>, m: string)
    requires forall ph :: ph in phases ==> !IsMarkerPhase(ph, m)
    ensures MarkerPositions(phases, m) == {}
  {
    forall j | 0 <= j < |phases| ensures !IsMarkerPhase(phases[j], m) {
      assert phases[j] in phases;
    }
  }

  lemma NoUserPositions(phases: seq<BuildPhase>)
    requires forall ph :: ph in phases ==> !IsUserPhase(ph)
    ensures UserPositions(phases) == {}
  {
    forall j | 0 <= j < |phases| ensures !IsUserPhase(phases[j]) {
      assert phases[j] in phases;
    }
  }

  /** On a target without CocoaPods phases, every count the target reports is zero. */
  lemma CleanTargetReportsNoPhases(t: Target, r: Report)
    requires NoPodsPhasesIn(t)
    requires r in ManageTarget(t) && (r.PhasesDeleted? || r.UserPhasesDeleted?)
    ensures r.count == 0
  {
    var log := ManageTarget(t);
    ManageTargetCounts(t);
    var i :| 0 <= i < 5 && log[i] == r;
    if 1 <= i < 4 {
      var m := PodsPhaseMarkers[i - 1];
      assert m in PodsPhaseMarkers;
      forall ph | ph in t.buildPhases ensures !IsMarkerPhase(ph, m) {}
      NoMarkerPositions(t.buildPhases, m);
    } else if i == 4 {
      forall ph | ph in t.buildPhases ensures !IsUserPhase(ph) {
        assert PodsPhaseMarkers[0] in PodsPhaseMarkers;
      }
      NoUserPositions(t.buildPhases);
    }
  }

  /** On a project without CocoaPods phases, every phase count a run reports is zero. */
  lemma CleanProjectReportsNoPhases(p: Project)
    requires NoPodsPhases(p)
    ensures forall r :: r in ManageProject(p) && (r.PhasesDeleted? || r.UserPhasesDeleted?) ==> r.count == 0
  {
    var targetsLog, tail := FlatMap(p.targets, ManageTarget), DeletePodsFileReferences(p);
    assert ManageProject(p) == [ProjectStarted(p.name)] + targetsLog + tail;
    forall r: Report | r in [ProjectStarted(p.name)] + targetsLog + tail && (r.PhasesDeleted? || r.UserPhasesDeleted?)
      ensures r.count == 0
    {
      if r in targetsLog {
        FlatMapMembers(p.targets, ManageTarget, r);
        var i :| 0 <= i < |p.targets| && r in ManageTarget(p.targets[i]);
        assert p.targets[i] in p.targets;
        CleanTargetReportsNoPhases(p.targets[i], r);
      }
    }
  }
}
