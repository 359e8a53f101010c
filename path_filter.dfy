/**
 * The scanner's two path filters. Both work on the path's string form with
 * plain substring and prefix tests; nothing is normalised and components
 * are not respected, so a pattern may match part of a directory name.
 */
module PathFilter {
  import opened Wrappers
  import opened Text
  import opened Paths

  /** `is_excluded`: some exclude pattern occurs in the path, checked in list order. */
  function IsExcluded(path: Path, patterns: seq<string>): (r: bool)
    ensures r <==> exists i :: 0 <= i < |patterns| && Contains(path, patterns[i])
  {
    if patterns == [] then false
    else if Contains(path, patterns[0]) then true
    else
      var r := IsExcluded(path, patterns[1..]);
      assert forall i :: 1 <= i < |patterns| ==> patterns[i] == patterns[1..][i - 1];
      r
  }

  /** The three tests `is_ignored_path` makes against one ignore entry. */
  predicate IgnoreEntryMatches(path: Path, entry: Path)
  {
    || Contains(path, entry)
    || StartsWith(path, entry + "/")
    || (StartsWith(path, entry)
        && (|path| == |entry|
            || NthChar(path, |entry|) == Some('/')
            || NthChar(path, |entry|) == Some(MainSeparator)))
  }

  /** `is_ignored_path`: some ignore entry matches, checked in list order. */
  function IsIgnoredPath(path: Path, ignores: seq<Path>): (r: bool)
    ensures r <==> exists i :: 0 <= i < |ignores| && IgnoreEntryMatches(path, ignores[i])
  {
    if ignores == [] then false
    else if IgnoreEntryMatches(path, ignores[0]) then true
    else
      var r := IsIgnoredPath(path, ignores[1..]);
      assert forall i :: 1 <= i < |ignores| ==> ignores[i] == ignores[1..][i - 1];
      r
  }

  /** An exclude pattern excludes every path it occurs in, at whatever offset. */
  lemma ExcludedWherever(path: Path, patterns: seq<string>, i: int, k: int)
    requires 0 <= i < |patterns| && OccursAt(path, patterns[i], k)
    ensures IsExcluded(path, patterns)
  {
    OccursAtContains(path, patterns[i], k);
  }

  /** Exclusion is exactly "some pattern occurs in the path string". */
  lemma ExcludedIffOccurs(path: Path, patterns: seq<string>)
    ensures IsExcluded(path, patterns) <==>
            exists i, k :: 0 <= i < |patterns| && OccursAt(path, patterns[i], k)
  {
    forall i | 0 <= i < |patterns| {
      ContainsIff(path, patterns[i]);
    }
  }

  /** With no patterns nothing is excluded; the empty pattern excludes every path. */
  lemma ExcludedBoundaryCases(path: Path, patterns: seq<string>)
    ensures patterns == [] ==> !IsExcluded(path, patterns)
    ensures "" in patterns ==> IsExcluded(path, patterns)
  {
    if "" in patterns {
      var i :| 0 <= i < |patterns| && patterns[i] == "";
      ExcludedWherever(path, patterns, i, 0);
    }
  }

  /** The prefix tests add nothing: an entry matches iff it occurs in the path. */
  lemma EntryMatchesIffContains(path: Path, entry: Path)
    ensures IgnoreEntryMatches(path, entry) <==> Contains(path, entry)
  {
    if StartsWith(path, entry + "/") {
      assert path[..|entry|] == (entry + "/")[..|entry|] == entry;
      StartsWithContains(path, entry);
    }
    if StartsWith(path, entry) {
      StartsWithContains(path, entry);
    }
  }

  /** An ignored path is exactly one in which some ignore entry occurs. */
  lemma IgnoredIffSomeEntryOccurs(path: Path, ignores: seq<Path>)
    ensures IsIgnoredPath(path, ignores) <==>
            exists i :: 0 <= i < |ignores| && Contains(path, ignores[i])
  {
    forall i | 0 <= i < |ignores| {
      EntryMatchesIffContains(path, ignores[i]);
    }
  }

  /** The ignore entry itself, and everything below it, is ignored. */
  lemma EntryAndDescendantsIgnored(ignores: seq<Path>, i: int, rest: string)
    requires 0 <= i < |ignores|
    ensures IsIgnoredPath(ignores[i], ignores)
    ensures IsIgnoredPath(ignores[i] + "/" + rest, ignores)
  {
    var e := ignores[i];
    assert IgnoreEntryMatches(e, e) by {
      assert e[..|e|] == e;
    }
    var d := e + "/" + rest;
    assert IgnoreEntryMatches(d, e) by {
      assert d[..|e + "/"|] == e + "/";
    }
  }

  /** An empty ignore list ignores nothing. */
  lemma NoIgnoresNothingIgnored(path: Path)
    ensures !IsIgnoredPath(path, [])
  {
  }

  /** Ignoring is the same test as excluding with the ignore entries as patterns. */
  lemma IgnoredIsExcludedByEntries(path: Path, ignores: seq<Path>)
    ensures IsIgnoredPath(path, ignores) == IsExcluded(path, ignores)
  {
    IgnoredIffSomeEntryOccurs(path, ignores);
  }

  /** Matching is by substring, so an ignore entry also catches a sibling whose name extends it. */
  lemma PartialNameIgnored()
    ensures IsIgnoredPath("/a/bc", ["/a/b"])
  {
  }
}
