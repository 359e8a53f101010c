/**
 * A discovered project: its directory, a display name taken from the
 * `[package]` section of its manifest (or the directory's own name), and
 * the analysis of its `target` directory once attached.
 */
module RustProjects {
  import opened Wrappers
  import opened Text
  import opened Paths
  import opened Fs
  import opened TargetFinder

  /** The manifest file that marks a project directory. */
  const ManifestFileName: string := "Cargo.toml"

  /** `RustProject`. */
  datatype RustProject = RustProject(path: Path, name: string, targetInfo: Option<TargetInfo>)

  datatype ProjectError =
    | ProjectPathMissing(path: Path)
    | ManifestMissing(path: Path)
    | ManifestUnreadable(path: Path)
    | NameUnknown

  // ---------------------------------------------------------------- the name

  /** A trimmed line that starts a section (`starts_with('[')`). */
  predicate IsHeader(trimmed: string)
  {
    |trimmed| > 0 && trimmed[0] == '['
  }

  /**
   * Line `k` lies in a `[package]` section: some earlier line trims to
   * exactly `[package]` and no header line comes between it and line `k`.
   */
  predicate InPackageAt(lines: seq<string>, k: int)
  {
    0 <= k <= |lines| &&
    exists h :: 0 <= h < k && Trim(lines[h]) == "[package]" &&
                forall j :: h < j < k ==> !IsHeader(Trim(lines[j]))
  }

  /** Line `k` declares the name: in `[package]`, trimmed it starts with `name` and has an `=`. */
  predicate IsNameLine(lines: seq<string>, k: int)
  {
    0 <= k < |lines| && InPackageAt(lines, k) &&
    StartsWith(Trim(lines[k]), "name") && '=' in Trim(lines[k])
  }

  /** The first name line at or after `i`. */
  function FirstNameLineFrom(lines: seq<string>, i: nat): (r: Option<nat>)
    ensures r.Some? ==> i <= r.value && IsNameLine(lines, r.value)
    ensures forall j :: i <= j < (if r.Some? then r.value else |lines|) ==> !IsNameLine(lines, j)
    decreases |lines| - i
  {
    if i >= |lines| then None
    else if IsNameLine(lines, i) then Some(i)
    else FirstNameLineFrom(lines, i + 1)
  }

  /**
   * The value of a name line: the text between its first and second `=`,
   * with whitespace trimmed, then every leading and trailing `"`, then
   * every leading and trailing `'`.
   */
  function NameValue(trimmedLine: string): string
    requires '=' in trimmedLine
  {
    var field := SecondField(trimmedLine, '=').value;
    TrimMatches(TrimMatches(Trim(field), Exactly('"')), Exactly('\''))
  }

  /** The name a manifest declares, or the fallback directory name, or an error. */
  function DeclaredName(lines: seq<string>, fallback: Option<string>): Result<string, ProjectError>
  {
    match FirstNameLineFrom(lines, 0)
    case Some(k) => Success(NameValue(Trim(lines[k])))
    case None => if fallback.Some? then Success(fallback.value) else Failure(NameUnknown)
  }

  /** `cargo_toml.parent()?.file_name()?`: the name of the manifest's directory. */
  function DirNameOf(cargoToml: Path): Option<string>
  {
    match Parent(cargoToml)
    case None => None
    case Some(dir) => FileName(dir)
  }

  /** The specified outcome of `extract_project_name` for a manifest path. */
  function ProjectNameOf(fs: FileSystem, cargoToml: Path): Result<string, ProjectError>
  {
    if cargoToml !in fs.texts then Failure(ManifestUnreadable(cargoToml))
    else DeclaredName(fs.texts[cargoToml], DirNameOf(cargoToml))
  }

  /** How one line moves the `[package]` state. */
  lemma InPackageStep(lines: seq<string>, i: nat)
    requires i < |lines|
    ensures Trim(lines[i]) == "[package]" ==> InPackageAt(lines, i + 1)
    ensures IsHeader(Trim(lines[i])) && Trim(lines[i]) != "[package]" ==> !InPackageAt(lines, i + 1)
    ensures !IsHeader(Trim(lines[i])) ==> (InPackageAt(lines, i + 1) <==> InPackageAt(lines, i))
  {
    if Trim(lines[i]) == "[package]" {
      assert 0 <= i < i + 1 && Trim(lines[i]) == "[package]";
    }
    if !IsHeader(Trim(lines[i])) && InPackageAt(lines, i + 1) {
      var h :| 0 <= h < i + 1 && Trim(lines[h]) == "[package]" &&
               forall j :: h < j < i + 1 ==> !IsHeader(Trim(lines[j]));
      assert h != i;
    }
  }

  /** Whether line `i` is the name line, given the `[package]` state before it. */
  lemma NameLineStep(lines: seq<string>, i: nat, inPackage: bool)
    requires i < |lines| && (inPackage <==> InPackageAt(lines, i))
    ensures var t := Trim(lines[i]);
            IsNameLine(lines, i) <==> inPackage && StartsWith(t, "name") && '=' in t
    ensures IsHeader(Trim(lines[i])) ==> !IsNameLine(lines, i)
    ensures !IsNameLine(lines, i) ==> FirstNameLineFrom(lines, i) == FirstNameLineFrom(lines, i + 1)
    ensures IsNameLine(lines, i) ==> FirstNameLineFrom(lines, i) == Some(i)
  {
    var t := Trim(lines[i]);
    if IsHeader(t) && |t| >= 4 {
      assert t[..4][0] == t[0];
    }
  }

  /** `extract_project_name`: scan the lines tracking `[package]`; fall back to the directory name. */
  method ExtractProjectName(fs: FileSystem, cargoToml: Path) returns (r: Result<string, ProjectError>)
    ensures r == ProjectNameOf(fs, cargoToml)
  {
    if cargoToml !in fs.texts {
      return Failure(ManifestUnreadable(cargoToml));
    }
    var lines := fs.texts[cargoToml];
    var inPackage := false;
    for i := 0 to |lines|
      invariant inPackage <==> InPackageAt(lines, i)
      invariant FirstNameLineFrom(lines, 0) == FirstNameLineFrom(lines, i)
    {
      var trimmed := Trim(lines[i]);
      InPackageStep(lines, i);
      NameLineStep(lines, i, inPackage);
      if trimmed == "[package]" {
        inPackage := true;
        continue;
      }
      if IsHeader(trimmed) && trimmed != "[package]" {
        inPackage := false;
        continue;
      }
      if inPackage && StartsWith(trimmed, "name") {
        var namePart := SecondField(trimmed, '=');
        if namePart.Some? {
          var name := TrimMatches(TrimMatches(Trim(namePart.value), Exactly('"')), Exactly('\''));
          return Success(name);
        }
      }
    }
    match DirNameOf(cargoToml)
    case Some(dirName) => return Success(dirName);
    case None => return Failure(NameUnknown);
  }

  /** The declared name comes from the first name line, and that line lies in `[package]`. */
  lemma NameFromFirstPackageLine(lines: seq<string>, fallback: Option<string>, k: nat)
    requires IsNameLine(lines, k) && forall j :: 0 <= j < k ==> !IsNameLine(lines, j)
    ensures DeclaredName(lines, fallback) == Success(NameValue(Trim(lines[k])))
    ensures InPackageAt(lines, k)
  {
    var r := FirstNameLineFrom(lines, 0);
    assert r.Some? && r.value == k;
  }

  /** Without a name line the directory name is used, and without that the extraction fails. */
  lemma NameFallback(lines: seq<string>, fallback: Option<string>)
    requires forall j :: 0 <= j < |lines| ==> !IsNameLine(lines, j)
    ensures DeclaredName(lines, fallback) ==
            if fallback.Some? then Success(fallback.value) else Failure(NameUnknown)
  {
    var r := FirstNameLineFrom(lines, 0);
    assert r.None?;
  }

  /** A header other than `[package]` ends the section; the lines after it do not count. */
  lemma OtherHeaderEndsSection(lines: seq<string>, h: nat, k: nat)
    requires h < k < |lines|
    requires IsHeader(Trim(lines[h])) && Trim(lines[h]) != "[package]"
    requires forall j :: h < j < k ==> Trim(lines[j]) != "[package]"
    ensures !IsNameLine(lines, k)
  {
  }

  /** For a manifest in a plainly named directory, the fallback is that directory's name. */
  lemma FallbackIsProjectDirName(projectPath: Path)
    requires projectPath != [] && projectPath[|projectPath| - 1] != '/'
    ensures DirNameOf(Join(projectPath, ManifestFileName)) == FileName(projectPath)
  {
    ParentOfJoin(projectPath, ManifestFileName);
  }

  // ---------------------------------------------------------------- the project

  /** The specified outcome of `from_path`. */
  function ProjectAt(fs: FileSystem, path: Path): Result<RustProject, ProjectError>
  {
    var cargoToml := Join(path, ManifestFileName);
    if path !in fs.existing then Failure(ProjectPathMissing(path))
    else if cargoToml !in fs.existing then Failure(ManifestMissing(cargoToml))
    else
      match ProjectNameOf(fs, cargoToml)
      case Failure(e) => Failure(e)
      case Success(name) => Success(RustProject(path, name, None))
  }

  /** `from_path`: the directory and its manifest must exist and the name must be found. */
  method FromPath(fs: FileSystem, path: Path) returns (r: Result<RustProject, ProjectError>)
    ensures r == ProjectAt(fs, path)
    ensures r.Success? ==> r.value.path == path && r.value.targetInfo.None?
    ensures r.Failure? <==> path !in fs.existing || Join(path, ManifestFileName) !in fs.existing ||
                            ProjectNameOf(fs, Join(path, ManifestFileName)).Failure?
  {
    if path !in fs.existing {
      return Failure(ProjectPathMissing(path));
    }
    var cargoToml := Join(path, ManifestFileName);
    if cargoToml !in fs.existing {
      return Failure(ManifestMissing(cargoToml));
    }
    var name := ExtractProjectName(fs, cargoToml);
    if name.Failure? {
      return Failure(name.error);
    }
    return Success(RustProject(path, name.value, None));
  }

  /** `with_target_info`: attach the analysis, keeping the path and the name. */
  function WithTargetInfo(p: RustProject, t: TargetInfo): (r: RustProject)
    ensures r.targetInfo == Some(t) && r.path == p.path && r.name == p.name
  {
    p.(targetInfo := Some(t))
  }

  // ---------------------------------------------------------------- an example

  /** In `[package]` / `name="x"` the second line is the name line. */
  lemma NameLineExample()
    ensures FirstNameLineFrom(["[package]", "name=\"x\""], 0) == Some(1)
    ensures Trim("name=\"x\"") == "name=\"x\""
  {
    var lines := ["[package]", "name=\"x\""];
    var header := "[package]";
    var line := "name=\"x\"";
    assert Trim(header) == header by {
      assert TrimStartMatches(header, Whitespace) == header;
      assert TrimEndMatches(header, Whitespace) == header;
    }
    assert Trim(line) == line by {
      assert TrimStartMatches(line, Whitespace) == line;
      assert TrimEndMatches(line, Whitespace) == line;
    }
    assert lines[0] == header && lines[1] == line;
    assert InPackageAt(lines, 1);
    assert !IsNameLine(lines, 0);
    assert IsNameLine(lines, 1) by {
      assert line[..4] == "name";
      assert line[4] == '=';
    }
  }
  /** The text after the first `=`. */
  lemma SecondFieldExample()
    ensures SecondField("name=\"x\"", '=') == Some("\"x\"")
  {
    var line := "name=\"x\"";
    var quoted := "\"x\"";
    assert IndexOf(line, '=') == Some(4);
    assert line[5..] == quoted;
    assert IndexOf(quoted, '=') == None;
  }
  /** Surrounding quotes are stripped. */
  lemma QuotesExample()
    ensures TrimMatches(TrimMatches(Trim("\"x\""), Exactly('"')), Exactly('\'')) == "x"
  {
    var quoted := "\"x\"";
    assert Trim(quoted) == quoted by {
      assert TrimStartMatches(quoted, Whitespace) == quoted;
      assert TrimEndMatches(quoted, Whitespace) == quoted;
    }
    assert TrimMatches(quoted, Exactly('"')) == "x" by {
      assert quoted[1..] == "x\"";
      assert TrimStartMatches("x\"", Exactly('"')) == "x\"";
      assert TrimStartMatches(quoted, Exactly('"')) == "x\"";
      assert "x\""[..1] == "x";
      assert TrimEndMatches("x", Exactly('"')) == "x";
    }
    assert TrimMatches("x", Exactly('\'')) == "x";
  }
  lemma NameValueExample()
    ensures NameValue("name=\"x\"") == "x"
  {
    SecondFieldExample();
    QuotesExample();
  }
  /** A two-line manifest declares the name `x`. */
  lemma ManifestNameExample()
    ensures DeclaredName(["[package]", "name=\"x\""], None) == Success("x")
  {
    NameLineExample();
    NameValueExample();
  }
}
