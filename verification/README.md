# CocoaPods deintegration: selection and traversal model

This project models the logic of `sebulba`, a command-line tool that is meant to
remove CocoaPods from an Xcode project. In the source, every removal is still a
TODO inside a loop that removes nothing. So what a run actually does is this:

- It decides whether a path is a project document, by its extension.
- For every target, it selects the CocoaPods shell-script build phases and reports how many it found:
  - the phases whose name contains one of three fixed markers;
  - the phases whose name starts with `[CP-User] `.
- It walks the main group's tree with `allSubGroups` and lists every file reference of the tree.
- It reports the empty `Pods` and `Frameworks` groups. There are never any, because `isEmpty` is hard-wired to `false`.

The project is loaded but never saved. A run therefore changes nothing, and its
only output is its reports. The model says exactly that. The object graph is
represented by plain values (`XcodeModel`). Every operation is a function of the
project that returns reports and no project. `allSubGroups`, the one loop that
builds a value the rest of the code uses, is a method proved equal to a
recursive function. The other loops either have empty bodies or only print:
the one over the targets in `manageProject` and the one over the listed files
in `deletePodsFileReferences`. They are modelled by the reports they produce.

Modules, one file each:

- `Wrappers` (`wrappers.dfy`): `Option`, for Swift's optionals.
- `Pipelines` (`pipelines.dfy`): `filter`, `compactMap` and `flatMap`, with lemmas about membership, order and length.
- `Text` (`text.dfy`): `hasPrefix`, `hasSuffix`, `contains`, and a last-index search.
- `XcodeModel` (`xcode.dfy`): groups, file references, build phases, targets and the project.
- `GroupTree` (`groups.dfy`): `allSubGroups` and `isEmpty` from the `PBXGroup` extension.
- `PhaseSelection` (`phases.dfy`): the two shell-script phase selections.
- `Deintegration` (`deintegrate.dfy`): `manageTarget`, `deleteEmptyGroup`, `deletePodsFileReferences` and `manageProject`, as report logs.
- `Documents` (`documents.dfy`): the project-document test in `run` and `manageFolder`.

What the code leaves undone, as it stands:

- The removals are TODOs. The loop bodies at `Sources/main/main.swift` lines 87, 97 and 108 are empty. The loop at lines 135-138 only prints each file, and the removal at line 137 is a TODO. The file-name filter at line 131 is a comment.
- `allSubGroups` (lines 212-217) has no guard against cycles.
- `isEmpty` (lines 220-222) returns `false` for every group.

## Model

| member | source | states |
|---|---|---|
| `GroupTree.AllSubGroups` | Sources/main/main.swift:212-217 | The loop over a copy of the initial subgroup list returns exactly `Descendants(g)`. That is the direct subgroups in order, then each direct subgroup's own `allSubGroups`, in the same order. |
| `GroupTree.DescendantsShape` | Sources/main/main.swift:212-217 | The result equals `subGroups + subGroups.flatMap(allSubGroups)`. Its first entries are the direct subgroups, in order. |
| `GroupTree.DescendantsMembers` | Sources/main/main.swift:212-217 | A group is returned if and only if it lies strictly below the root. Both directions are proved. |
| `GroupTree.RootNotInDescendants` | Sources/main/main.swift:212-217 | The root is never among its own `allSubGroups`. |
| `GroupTree.DescendantsLength` | Sources/main/main.swift:212-217 | The length equals the number of groups in the tree minus one. So each group below the root appears once per position in the tree. |
| `GroupTree.DescendantsClosed` | Sources/main/main.swift:212-217 | Whatever lies below a returned group is also returned. |
| `GroupTree.BelowIsSmaller` | Sources/main/main.swift:212-217 | A group strictly below another roots a strictly smaller tree. `RootNotInDescendants` follows from it. |
| `Pipelines.Filter` | Sources/main/main.swift:104-106 | `filter` keeps only elements of the input that pass the test. Every element of the input that passes the test is kept. |
| `Pipelines.FilterCompactMap` | Sources/main/main.swift:93-95 | A `compactMap` followed by a `filter` is one order-preserving `compactMap` that also drops what the filter rejects. |
| `Pipelines.FlatMapMembers` | Sources/main/main.swift:130 | An element is in a `flatMap` result if and only if some input element's list holds it. |
| `Text.ContainsIffOccurs` | Sources/main/main.swift:95 | The `contains` scan succeeds if and only if the substring occurs at some position. The match is case-sensitive. |
| `PhaseSelection.ScriptsWhereIsOnePass` | Sources/main/main.swift:93-95 | The `compactMap { $0 as? PBXShellScriptBuildPhase }.filter` pipeline keeps exactly the shell-script phases that pass the name test, in `buildPhases` order. |
| `PhaseSelection.PhasesContainingMembers` | Sources/main/main.swift:92-95 | A phase is selected for a marker if and only if it is a shell-script phase with a name that contains the marker. Phases of other kinds and nameless phases are never selected. |
| `PhaseSelection.PhasesContainingOrder` | Sources/main/main.swift:92-95 | The selection of `a + b` is the selection of `a` followed by that of `b`. One phase is selected exactly when it is a marker phase. Together, these keep the order of `buildPhases`. |
| `PhaseSelection.PhasesContainingCount` | Sources/main/main.swift:92-99 | The selected list's length equals the number of positions in `buildPhases` that hold a marker phase. |
| `PhaseSelection.UserPhasesMembers` | Sources/main/main.swift:82-85 | A phase is selected if and only if it is a shell-script phase whose name is present and starts with `[CP-User] `. |
| `PhaseSelection.UserPhasesOrder` | Sources/main/main.swift:82-85 | The user selection of `a + b` is the selection of `a` followed by that of `b`. One phase is selected exactly when it is a user phase. |
| `PhaseSelection.UserPhasesCount` | Sources/main/main.swift:82-89 | The selected list's length equals the number of positions in `buildPhases` that hold a user phase. |
| `Deintegration.ManageShellScriptPhase` | Sources/main/main.swift:92-100 | The reported count for a marker is the number of the target's phases that carry that marker. |
| `Deintegration.ManageUserShellScriptPhase` | Sources/main/main.swift:82-90 | The reported count is the number of the target's user phases. |
| `Deintegration.MarkerReports` | Sources/main/main.swift:61-63 | One report per marker, in marker order. Each report states the number of positions in `buildPhases` that hold a phase carrying that marker. |
| `Deintegration.ManageTarget` | Sources/main/main.swift:59-67 | A target yields exactly five reports, and the first names the target. |
| `Deintegration.ManageTargetCounts` | Sources/main/main.swift:59-67 | After the name come the counts for `Copy Pods Resources`, `Check Pods Manifest.lock` and `Embed Pods Frameworks`, in that order, then the user-phase count. Each count is a number of matching positions. |
| `Deintegration.TargetReportKinds` | Sources/main/main.swift:59-67 | A target's reports are only its name, phase counts and the user-phase count. |
| `Deintegration.ProjectFileRefsOrder` | Sources/main/main.swift:127-130 | The collected file references are those of the groups below the main group, in `allSubGroups` order, followed by the main group's own. |
| `Deintegration.ProjectFileRefsMembers` | Sources/main/main.swift:127-130 | A file reference is collected if and only if it is a direct file reference of the main group or of a group strictly below it. |
| `Deintegration.ProjectFileRefsEmpty` | Sources/main/main.swift:127-133 | Nothing is collected if and only if no group in the tree has a file reference. |
| `Deintegration.NamedGroupsWhereMembers` | Sources/main/main.swift:102-106 | For every emptiness test, a group is selected if and only if it lies strictly below the main group, has exactly the given name, and passes the test. `NamedEmptyGroups` is this selection with `isEmpty` as the test. |
| `Deintegration.NoEmptyGroupSelected` | Sources/main/main.swift:102-106 | Because `isEmpty` is always false, the selection is empty for every tree and every name. |
| `Deintegration.DeleteEmptyGroup` | Sources/main/main.swift:102-112 | With no main group there is no report. Otherwise the one report for the group name has count 0. |
| `Deintegration.DeletePodsFileReferences` | Sources/main/main.swift:127-143 | There are no reports when the main group is missing or nothing is collected. Otherwise the reports are every collected file reference, then the `Pods` empty-group report, then the `Frameworks` one, both with count 0. |
| `Deintegration.ManageProject` | Sources/main/main.swift:50-57 | The first report names the project. The log holds that report, five reports per target and then the reports of the file-reference pass. |
| `Deintegration.ManageProjectShape` | Sources/main/main.swift:50-57 | After the project report come the targets' reports, and the file-reference pass follows the last block, for every project, with or without targets. |
| `Deintegration.ManageProjectLayout` | Sources/main/main.swift:52-54 | The reports of target `k` are block `k` of five after the project report. So targets are handled in declaration order. |
| `Deintegration.EmptyGroupCountsAreZero` | Sources/main/main.swift:102-110 | Every empty-group count that a run reports is 0. |
| `Deintegration.CleanTargetReportsNoPhases` | Sources/main/main.swift:59-64 | For a target with no marker or user phases, every count it reports is 0. |
| `Deintegration.CleanProjectReportsNoPhases` | Sources/main/main.swift:52-54 | For a project with no CocoaPods phases, every phase count that a run reports is 0. |
| `Documents.IsProjectDocument` | Sources/main/main.swift:23 | The test in `run` (and at line 33 in `manageFolder`) holds if and only if the last path component is a non-empty name followed by `.xcodeproj` or `.pbxproj`. |
| `Documents.ComponentExtensionIff` | Sources/main/main.swift:23 | A path component has a given dot-free, non-empty extension if and only if it is a non-empty name followed by `.` and that extension. |
| `Documents.ProjectComponentIffSuffix` | Sources/main/main.swift:23 | A path component has the extension `xcodeproj` or `pbxproj` if and only if it is a non-empty name followed by `.xcodeproj` or `.pbxproj`. |

## Left out

- The command-line surface (`Cmd`, its flags and arguments, `run`'s dispatch) is ArgumentParser plumbing. Only the extension test is modelled, and `manageFolder` at line 33 applies the same test.
- `manageFolder`'s directory walk and `URL.isDirectory` are file-system I/O.
- Loading the project with `XcodeProj(url:)` (line 43) calls a library whose parsing is not visible. The project value is a parameter instead. Nothing saves the project, so no write-back is modelled.
- `removePodDirectory` (lines 69-71) is an empty stub.
- `managePodsLibraries` (lines 73-80) selects the frameworks phases and discards them. Its filter and its removal are TODOs, so it has no effect and prints nothing.
- `manageConfigurationFileReferences` (lines 114-125) has its whole body commented out.
- The removal loops (lines 86-88, 96-98, 107-109, 135-138) are not modelled as loops. Their bodies are empty, except for the per-file print in `deletePodsFileReferences`, which the `FileRefsListed` report stands for, together with the heading printed before them at line 134. The exact text printed for each file (`name ?? path ?? ""`) is not modelled.
- `printPod`, the ASCII art, emoji and message wording are not modelled. Neither are the messages of `manageXcodeProj` (lines 42 and 47), which print around `manageProject`. The project's name is a field of the project value, standing for `projectName`. Reports carry only names, counts and the listed file references.
- Object identity is not modelled. XcodeProjKit objects are references, but the model compares groups, phases and file references as values. Two distinct objects with equal contents cannot be told apart, and membership statements are about values.
- Cycles in the group graph are not modelled. Datatype trees are finite and acyclic. On a cyclic graph, the source's `allSubGroups` would recurse without end.
- `XcodeModel.Group` stores `subGroups` and `fileRefs` as two ordered lists. How groups and file references interleave in a group's `children` is not represented, and the code never uses it.
- `Text.Contains`, `Text.HasPrefix` and the name equality in `Deintegration.HasName`: Swift compares strings by extended grapheme clusters under canonical equivalence. This applies to `contains` (line 95), `hasPrefix` (line 85) and the group-name `==` (line 105). The model compares `char` sequences. An empty needle counts as contained, but it never occurs, because the markers are fixed, non-empty literals.
- `Documents.PathExtension`: Foundation's URL handling is not part of this model. The model reads the extension by these rules:
  - trailing slashes are ignored;
  - only the last path component counts;
  - the extension is the text after the last dot;
  - a component whose only dot is its first character has no extension.

  Percent-encoding and other URL normalisation are not modelled.
