/**
 The part of an Xcode project's object graph that the deintegration code reads,
 as plain values: a group tree with its file references, the ordered build
 phases of each target, and the project with its optional main group.
 */
module XcodeModel {
  import opened Wrappers

  /** A `PBXFileReference`: a leaf of the group tree. */
  datatype FileRef = FileRef(name: Option<string>, path: Option<string>)

  /** A `PBXGroup`, seen through its `subGroups` and `fileRefs`, both in the order of its children. */
  datatype Group = Group(name: Option<string>, subGroups: seq<Group>, fileRefs: seq<FileRef>)

  /** A `PBXShellScriptBuildPhase`; only its optional name is read. */
  datatype ShellScriptPhase = ShellScriptPhase(name: Option<string>)

  /** A build phase of a target: a shell script, a frameworks phase, or any other kind. */
  datatype BuildPhase =
    | ShellScript(script: ShellScriptPhase)
    | Frameworks
    | Other

  /** A `PBXTarget`: its name and its build phases in declaration order. */
  datatype Target = Target(name: string, buildPhases: seq<BuildPhase>)

  /** The loaded project: its name, its targets in declaration order and its main group, which may be missing. */
  datatype Project = Project(name: string, targets: seq<Target>, mainGroup: Option<Group>)
}
