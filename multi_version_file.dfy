/**
  The file-configuration properties and their initialisation: when file configuration is
  on, a configured path whose last dot-separated segment is not "txt" gets the default file
  name appended, and the file is then created if missing.
*/
module MultiVersionFileConfig {
  import opened Wrappers

  /** The file name appended to a path that does not name a text file. */
  const DefaultFileName: string := "VersionConfig.txt"

  /** The position of the last '.' in `s`, or -1 when there is none. */
  function LastDot(s: string): (i: int)
    ensures -1 <= i < |s|
    ensures i >= 0 ==> s[i] == '.'
    ensures forall j :: i < j < |s| ==> s[j] != '.'
  {
    if s == [] then -1
    else if s[|s| - 1] == '.' then |s| - 1
    else LastDot(s[..|s| - 1])
  }

  /** `s` cut at every '.', keeping every segment, empty ones included. */
  function RawSplit(s: string): (parts: seq<string>)
    ensures |parts| >= 1
    ensures forall k :: 0 <= k < |parts| ==> '.' !in parts[k]
    decreases |s|
  {
    var i := LastDot(s);
    if i < 0 then [s] else RawSplit(s[..i]) + [s[i + 1..]]
  }

  /** The segments joined back with '.' between them. */
  function Join(parts: seq<string>): string
    requires |parts| >= 1
  {
    if |parts| == 1 then parts[0] else Join(parts[..|parts| - 1]) + "." + parts[|parts| - 1]
  }

  /** Splitting then joining gives back the string. */
  lemma {:induction false} JoinRawSplit(s: string)
    ensures Join(RawSplit(s)) == s
    decreases |s|
  {
    var i := LastDot(s);
    if i >= 0 {
      var parts := RawSplit(s);
      JoinRawSplit(s[..i]);
      assert parts[..|parts| - 1] == RawSplit(s[..i]);
      assert s == s[..i] + "." + s[i + 1..];
    }
  }

  /** Joining segments without dots then splitting gives back the segments. */
  lemma {:induction false} RawSplitJoin(parts: seq<string>)
    requires |parts| >= 1
    requires forall k :: 0 <= k < |parts| ==> '.' !in parts[k]
    ensures RawSplit(Join(parts)) == parts
    decreases |parts|
  {
    var last := parts[|parts| - 1];
    if |parts| == 1 {
      assert LastDot(last) == -1;
    } else {
      var front := parts[..|parts| - 1];
      var s := Join(parts);
      var j := |Join(front)|;
      assert s == Join(front) + "." + last;
      assert s[j] == '.';
      forall q | j < q < |s| ensures s[q] != '.' {
        assert s[q] == last[q - j - 1];
      }
      assert LastDot(s) == j;
      assert s[..j] == Join(front) && s[j + 1..] == last;
      RawSplitJoin(front);
    }
  }

  /** The segments without the empty ones at the end. */
  function DropTrailingEmpty(parts: seq<string>): (r: seq<string>)
    ensures |r| <= |parts| && r == parts[..|r|]
    ensures r == [] || r[|r| - 1] != ""
    ensures forall k :: |r| <= k < |parts| ==> parts[k] == ""
  {
    if parts == [] || parts[|parts| - 1] != "" then parts
    else DropTrailingEmpty(parts[..|parts| - 1])
  }

  /**
    The source language's split of a path on '.': a path without a dot is its only
    segment; otherwise the segments, with trailing empty segments removed.
  */
  function JavaSplit(s: string): (parts: seq<string>)
    ensures LastDot(s) < 0 ==> parts == [s]
    ensures forall k :: 0 <= k < |parts| ==> '.' !in parts[k]
  {
    if LastDot(s) < 0 then [s] else DropTrailingEmpty(RawSplit(s))
  }

  datatype InitError =
    | IndexOutOfBounds          // the split left no segment; escapes as an index error
    | CreationFailed(path: string)  // creating the file failed; wrapped in a runtime exception

  /** Whether the last dot-separated segment of `path` is "txt". */
  predicate LastSegmentIsTxt(path: string)
  {
    var parts := JavaSplit(path);
    parts != [] && parts[|parts| - 1] == "txt"
  }

  /**
    The configured path after the suffix rule: unchanged when its last segment is "txt",
    else with the default file name appended; an index error when the split is empty.
  */
  function SuffixRule(path: string): (r: Result<string, InitError>)
    ensures r.Err? <==> JavaSplit(path) == []
    ensures r.Err? ==> r.error == IndexOutOfBounds
    ensures r.Ok? ==> r.value == path || r.value == path + DefaultFileName
    ensures r.Ok? ==> (r.value == path <==> LastSegmentIsTxt(path))
  {
    if JavaSplit(path) == [] then Err(IndexOutOfBounds)
    else if LastSegmentIsTxt(path) then Ok(path)
    else
      assert |path + DefaultFileName| == |path| + |DefaultFileName| > |path|;
      Ok(path + DefaultFileName)
  }

  /** The split of anything followed by ".txt" ends with the segment "txt". */
  lemma TxtSuffixSplit(a: string)
    ensures var parts := JavaSplit(a + ".txt"); |parts| >= 1 && parts[|parts| - 1] == "txt"
  {
    var s := a + ".txt";
    assert s[|a|] == '.';
    forall q | |a| < q < |s| ensures s[q] != '.' {
      assert s[q] == "txt"[q - |a| - 1];
    }
    assert LastDot(s) == |a|;
    assert s[|a| + 1..] == "txt";
  }

  /** A path ending in ".txt" is kept as it is. */
  lemma TxtPathUnchanged(a: string)
    ensures SuffixRule(a + ".txt") == Ok(a + ".txt")
  {
    TxtSuffixSplit(a);
  }

  /** The default file name is itself a name followed by ".txt". */
  lemma DefaultFileNameSplits(path: string)
    ensures path + DefaultFileName == (path + "VersionConfig") + ".txt"
  {
    assert DefaultFileName == "VersionConfig" + ".txt";
  }

  /** Applying the rule to its own result changes nothing. */
  lemma SuffixRuleIdempotent(path: string)
    requires SuffixRule(path).Ok?
    ensures SuffixRule(SuffixRule(path).value) == SuffixRule(path)
  {
    var t := SuffixRule(path).value;
    if t != path {
      DefaultFileNameSplits(path);
      TxtSuffixSplit(path + "VersionConfig");
      assert LastSegmentIsTxt(t);
    }
  }

  /** A path without a dot gets the default file name appended, unless the path is exactly "txt". */
  lemma NoDotPaths(path: string)
    requires '.' !in path
    ensures path != "txt" ==> SuffixRule(path) == Ok(path + DefaultFileName)
    ensures SuffixRule("txt") == Ok("txt")
    ensures SuffixRule("") == Ok(DefaultFileName)
  {
    assert LastDot(path) < 0;
    assert LastDot("txt") < 0;
    assert LastDot("") < 0;
    assert "" + DefaultFileName == DefaultFileName;
  }

  /** A trailing dot only adds an empty last segment, which the split drops again. */
  lemma TrailingDotDropped(a: string)
    requires LastDot(a) >= 0
    ensures JavaSplit(a + ".") == JavaSplit(a)
  {
    var parts := RawSplit(a) + [""];
    RawSplitTrailingDot(a);
    assert parts[..|parts| - 1] == RawSplit(a);
  }

  /** The last dot of a string ending in a dot is that dot. */
  lemma LastDotTrailingDot(a: string)
    ensures LastDot(a + ".") == |a|
  {
    var s := a + ".";
    assert s[|s| - 1] == '.';
  }

  /** Cutting at a trailing dot adds one empty segment. */
  lemma RawSplitTrailingDot(a: string)
    ensures RawSplit(a + ".") == RawSplit(a) + [""]
  {
    var s := a + ".";
    LastDotTrailingDot(a);
    assert s[..|a|] == a;
    assert s[|a| + 1..] == "";
  }

  /** So "a.txt." counts as a text file and is kept as it is. */
  lemma TrailingDotKept()
    ensures SuffixRule("a.txt.") == Ok("a.txt.")
  {
    TxtSuffixSplit("a");
    assert "a.txt"[1] == '.';
    assert "a" + ".txt" == "a.txt";
    TrailingDotDropped("a.txt");
    assert "a.txt" + "." == "a.txt.";
  }

  /** Only the last segment counts: "a.txt.md" gets the default file name appended. */
  lemma InnerTxtNotEnough()
    ensures SuffixRule("a.txt.md") == Ok("a.txt.md" + DefaultFileName)
  {
    var m := "a.txt.md";
    assert m[5] == '.' && m[6] == 'm' && m[7] == 'd';
    assert m[..5] == "a.txt" && m[6..] == "md";
    assert LastDot(m) == 5;
    assert RawSplit(m) == RawSplit("a.txt") + ["md"];
  }

  /** A non-empty path made only of dots splits into nothing, and the rule fails with an index error. */
  lemma {:induction false} AllDotsFail(path: string)
    requires path != [] && forall k :: 0 <= k < |path| ==> path[k] == '.'
    ensures SuffixRule(path) == Err(IndexOutOfBounds)
  {
    AllDotsRawSplitEmpty(path);
  }

  lemma {:induction false} AllDotsRawSplitEmpty(path: string)
    requires forall k :: 0 <= k < |path| ==> path[k] == '.'
    ensures forall k :: 0 <= k < |RawSplit(path)| ==> RawSplit(path)[k] == ""
    ensures DropTrailingEmpty(RawSplit(path)) == []
    decreases |path|
  {
    var i := LastDot(path);
    if i >= 0 {
      assert i == |path| - 1;
      AllDotsRawSplitEmpty(path[..i]);
      AllEmptyDropsAll(RawSplit(path));
    } else {
      assert path == [];
    }
  }

  lemma {:induction false} AllEmptyDropsAll(parts: seq<string>)
    requires forall k :: 0 <= k < |parts| ==> parts[k] == ""
    ensures DropTrailingEmpty(parts) == []
    decreases |parts|
  {
    if parts != [] {
      AllEmptyDropsAll(parts[..|parts| - 1]);
    }
  }

  class MultiVersionFile {
    var fileConfiguration: bool
    var fileRefreshTime: int
    var filePath: string

    /** Defaults: file configuration off, a 5000 ms refresh interval, an empty path. */
    constructor ()
      ensures !fileConfiguration && fileRefreshTime == 5000 && filePath == ""
    {
      fileConfiguration := false;
      fileRefreshTime := 5000;
      filePath := "";
    }

    /**
      Initialisation: with file configuration on, the suffix rule is applied to the path and
      the file is then created if missing; `createFails` says whether creating it fails. The
      path is rewritten before the creation step, so it stays rewritten when that fails.
    */
    method Init(createFails: bool) returns (err: Option<InitError>)
      modifies this
      ensures fileConfiguration == old(fileConfiguration) && fileRefreshTime == old(fileRefreshTime)
      ensures !fileConfiguration ==> filePath == old(filePath) && err == None
      ensures fileConfiguration && SuffixRule(old(filePath)).Err? ==>
                filePath == old(filePath) && err == Some(IndexOutOfBounds)
      ensures fileConfiguration && SuffixRule(old(filePath)).Ok? ==>
                && filePath == SuffixRule(old(filePath)).value
                && err == (if createFails then Some(CreationFailed(filePath)) else None)
    {
      if fileConfiguration {
        var temp := JavaSplit(filePath);
        if temp == [] {
          return Some(IndexOutOfBounds);
        }
        if temp[|temp| - 1] != "txt" {
          filePath := filePath + DefaultFileName;
        }
        if createFails {
          return Some(CreationFailed(filePath));
        }
      }
      return None;
    }
  }
}
