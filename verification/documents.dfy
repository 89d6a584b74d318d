/**
 The test `run` and `manageFolder` apply to a path before opening it as a
 project: its `pathExtension` must be `xcodeproj` or `pbxproj`. Foundation's URL
 handling is not part of this model; the extension is read by these rules:
 trailing slashes are ignored, only the last path component counts, the
 extension is what follows its last dot, and a component whose only dot is its
 first character has none.
 */
module Documents {
  import opened Text

  const ProjectBundleExtension := "xcodeproj"
  const ProjectFileExtension := "pbxproj"

  /** `path` without the slashes it ends with. */
  function TrimTrailingSlashes(path: string): (r: string)
    ensures |r| <= |path| && r == path[..|r|]
    ensures r == [] || r[|r| - 1] != '/'
    ensures forall i :: |r| <= i < |path| ==> path[i] == '/'
    decreases |path|
  {
    if |path| > 0 && path[|path| - 1] == '/' then TrimTrailingSlashes(path[..|path| - 1]) else path
  }

  /** The last component of `path`: what follows its last inner slash. */
  function LastComponent(path: string): (r: string)
    ensures '/' !in r
    ensures HasSuffix(TrimTrailingSlashes(path), r)
    ensures var t := TrimTrailingSlashes(path); |r| == |t| || t[|t| - |r| - 1] == '/'
  {
    var t := TrimTrailingSlashes(path);
    t[LastIndexOf(t, '/') + 1..]
  }

  /** The extension of one path component: what follows its last dot, unless that dot is the first character. */
  function ComponentExtension(c: string): (r: string)
    ensures '.' !in r
  {
    var d := LastIndexOf(c, '.');
    if d <= 0 then "" else c[d + 1..]
  }

  /** `URL(fileURLWithPath: path).pathExtension` */
  function PathExtension(path: string): string
  {
    ComponentExtension(LastComponent(path))
  }

  /** `url.pathExtension == "xcodeproj" || url.pathExtension == "pbxproj"` */
  predicate IsProjectDocument(path: string): (b: bool)
    ensures b <==> NamedWithExtension(LastComponent(path), ProjectBundleExtension) ||
                   NamedWithExtension(LastComponent(path), ProjectFileExtension)
  {
    ProjectComponentIffSuffix(LastComponent(path));
    IsProjectExtension(PathExtension(path))
  }

  predicate IsProjectExtension(e: string)
  {
    e == ProjectBundleExtension || e == ProjectFileExtension
  }

  /** `component` is a name followed by `.` and `ext`, with a non-empty name. */
  predicate NamedWithExtension(component: string, ext: string)
  {
    |component| > |ext| + 1 && HasSuffix(component, "." + ext)
  }

  /** A component has extension `ext` exactly when it is a non-empty name followed by `.` and `ext`. */
  lemma ComponentExtensionIff(c: string, ext: string)
    requires '.' !in ext && ext != ""
    ensures ComponentExtension(c) == ext <==> NamedWithExtension(c, ext)
  {
    var d := LastIndexOf(c, '.');
    if ComponentExtension(c) == ext {
      assert d > 0 && c[d + 1..] == ext;
      assert c[|c| - |ext| - 1..] == "." + ext;
    }
    if NamedWithExtension(c, ext) {
      var dot := |c| - |ext| - 1;
      assert c[dot] == '.' by {
        assert c[dot..][0] == ("." + ext)[0];
      }
      forall i | dot < i < |c| ensures c[i] != '.' {
        assert c[i] == c[dot..][i - dot] == ("." + ext)[i - dot];
        assert ("." + ext)[i - dot] == ext[i - dot - 1];
      }
      assert d == dot;
    }
  }

  /** A component has a project extension exactly when it is a non-empty name ending in `.xcodeproj` or `.pbxproj`. */
  lemma ProjectComponentIffSuffix(c: string)
    ensures IsProjectExtension(ComponentExtension(c)) <==>
      NamedWithExtension(c, ProjectBundleExtension) || NamedWithExtension(c, ProjectFileExtension)
  {
    ComponentExtensionIff(c, ProjectBundleExtension);
    ComponentExtensionIff(c, ProjectFileExtension);
  }
}
