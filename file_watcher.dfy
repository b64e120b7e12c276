/**
  The watcher that loads the version allow-list from the configuration file: each non-blank
  line becomes a version key ("/" + the trimmed version, or the line itself when it already
  starts with "/"), and the cached list is replaced when the file is read.
*/
module FileWatcher {
  import opened Wrappers

  /** Whether `c` is removed by trimming: every character up to and including the space. */
  predicate IsTrimmed(c: char)
  {
    c <= ' '
  }

  /** `s` without its leading trimmed characters. */
  function TrimStart(s: string): (r: string)
    ensures |r| <= |s| && r == s[|s| - |r|..]
    ensures r == [] || !IsTrimmed(r[0])
    ensures forall i :: 0 <= i < |s| - |r| ==> IsTrimmed(s[i])
  {
    if s != [] && IsTrimmed(s[0]) then TrimStart(s[1..]) else s
  }

  /** `s` without its trailing trimmed characters. */
  function TrimEnd(s: string): (r: string)
    ensures |r| <= |s| && r == s[..|r|]
    ensures r == [] || !IsTrimmed(r[|r| - 1])
    ensures forall i :: |r| <= i < |s| ==> IsTrimmed(s[i])
  {
    if s != [] && IsTrimmed(s[|s| - 1]) then TrimEnd(s[..|s| - 1]) else s
  }

  /** The source language's trim: leading and trailing characters up to the space removed. */
  function Trim(s: string): string
  {
    TrimEnd(TrimStart(s))
  }

  /** A line is blank exactly when trimming leaves nothing, that is when all its characters are trimmed. */
  lemma TrimEmptyIffBlank(s: string)
    ensures Trim(s) == [] <==> forall i :: 0 <= i < |s| ==> IsTrimmed(s[i])
  {
  }

  /** A prefix of a suffix of `s` is a slice of `s`, and what the prefix leaves off lies at the end of `s`. */
  lemma PrefixOfSuffix(s: string, i: nat, r: string)
    requires i <= |s| && |r| <= |s| - i && r == s[i..][..|r|]
    ensures r == s[i..i + |r|]
    ensures forall k :: i + |r| <= k < |s| ==> s[k] == s[i..][k - i]
  {
  }

  /**
    Trimming keeps a contiguous part of the line, from the first character above the space
    on, and removes only trimmed characters around it.
  */
  lemma TrimIsSlice(s: string)
    ensures var i := |s| - |TrimStart(s)|;
            var j := i + |Trim(s)|;
            && j <= |s| && Trim(s) == s[i..j]
            && (forall k :: 0 <= k < i ==> IsTrimmed(s[k]))
            && (forall k :: j <= k < |s| ==> IsTrimmed(s[k]))
  {
    var a := TrimStart(s);
    var i := |s| - |a|;
    var r := TrimEnd(a);
    PrefixOfSuffix(s, i, r);
  }

  /** What trimming keeps starts and ends with an untrimmed character. */
  lemma TrimEnds(s: string)
    ensures Trim(s) != [] ==> !IsTrimmed(Trim(s)[0]) && !IsTrimmed(Trim(s)[|Trim(s)| - 1])
  {
    var a := TrimStart(s);
    var r := TrimEnd(a);
    if r != [] {
      assert r[0] == a[0];
    }
  }

  /** Trimming a trimmed line changes nothing. */
  lemma TrimIdempotent(s: string)
    ensures Trim(Trim(s)) == Trim(s)
  {
    TrimEnds(s);
    var t := Trim(s);
    if t != [] {
      assert TrimStart(t) == t;
    }
  }

  /** What one line of the file contributes: nothing when blank, else its version key. */
  function NormalizeLine(line: string): (r: Option<string>)
    ensures r.Some? ==> r.value != [] && r.value[0] == '/'
  {
    if Trim(line) == [] then None
    else if |line| > 0 && line[0] == '/' then Some(line)
    else Some("/" + Trim(line))
  }

  /** The allow-list read from the file's lines, in file order. */
  function NormalizeLines(lines: seq<string>): (r: seq<string>)
    ensures |r| <= |lines|
    decreases |lines|
  {
    if lines == [] then []
    else match NormalizeLine(lines[0])
      case None => NormalizeLines(lines[1..])
      case Some(entry) => [entry] + NormalizeLines(lines[1..])
  }

  /** Normalising the lines of two pieces of a file is normalising each piece: order is kept. */
  lemma {:induction false} NormalizeLinesAppend(a: seq<string>, b: seq<string>)
    ensures NormalizeLines(a + b) == NormalizeLines(a) + NormalizeLines(b)
    decreases |a|
  {
    if a == [] {
      assert a + b == b;
    } else {
      assert (a + b)[0] == a[0] && (a + b)[1..] == a[1..] + b;
      NormalizeLinesAppend(a[1..], b);
    }
  }

  /** An entry is in the allow-list exactly when some line of the file normalises to it. */
  lemma {:induction false} NormalizeLinesMembers(lines: seq<string>, e: string)
    ensures e in NormalizeLines(lines) <==> exists l :: l in lines && NormalizeLine(l) == Some(e)
    decreases |lines|
  {
    if lines != [] {
      NormalizeLinesMembers(lines[1..], e);
      if exists l :: l in lines && NormalizeLine(l) == Some(e) {
        var l :| l in lines && NormalizeLine(l) == Some(e);
        if l != lines[0] {
          assert l in lines[1..];
        }
      }
    }
  }

  /**
    Blank lines are dropped; a line starting with "/" is kept verbatim, untrimmed; any other
    line becomes "/" followed by the trimmed line, so its displayed form (without the first
    character) is the trimmed line.
  */
  lemma NormalizeLineCases(line: string)
    ensures (forall i :: 0 <= i < |line| ==> IsTrimmed(line[i])) <==> NormalizeLine(line).None?
    ensures NormalizeLine(line).Some? && line[0] == '/' ==> NormalizeLine(line).value == line
    ensures NormalizeLine(line).Some? && line[0] != '/' ==>
              NormalizeLine(line).value[1..] == Trim(line) && NormalizeLine(line).value == "/" + Trim(line)
  {
    TrimEmptyIffBlank(line);
  }

  /** Every allow-list entry starts with "/" and is not blank, so normalising it again keeps it as it is. */
  lemma {:induction false} NormalizeLinesIdempotent(lines: seq<string>)
    ensures NormalizeLines(NormalizeLines(lines)) == NormalizeLines(lines)
    decreases |lines|
  {
    if lines != [] {
      NormalizeLinesIdempotent(lines[1..]);
      match NormalizeLine(lines[0])
      case None =>
      case Some(entry) =>
        TrimEmptyIffBlank(entry);
        assert !IsTrimmed(entry[0]);
        assert NormalizeLine(entry) == Some(entry);
        var rest := NormalizeLines(lines[1..]);
        assert ([entry] + rest)[0] == entry && ([entry] + rest)[1..] == rest;
    }
  }

  /** A line whose "/" follows leading spaces is not recognised as a key: it gains a second slash. */
  lemma IndentedKeyGetsSecondSlash()
    ensures NormalizeLine(" /v1") == Some("//v1")
  {
    assert " /v1"[0] == ' ' && " /v1"[1..] == "/v1";
    assert TrimStart(" /v1") == "/v1";
    assert "/v1"[2] == '1';
    assert TrimEnd("/v1") == "/v1";
    assert Trim(" /v1") == "/v1";
    assert "/" + "/v1" == "//v1";
  }

  /** What reading the configuration file gives: it does not exist, it cannot be read, or its lines. */
  datatype ConfigFile = Missing | Unreadable | Present(lines: seq<string>)

  datatype WatchError = ReadFailed  // the read failed; surfaced as a runtime exception

  class DynamicFileWatcher {
    const fileEnabled: bool
    const refreshTime: int
    /** The cached allow-list. */
    var fileConfiguration: seq<string>

    constructor (fileEnabled: bool, refreshTime: int)
      ensures this.fileEnabled == fileEnabled && this.refreshTime == refreshTime
      ensures fileConfiguration == []
    {
      this.fileEnabled := fileEnabled;
      this.refreshTime := refreshTime;
      fileConfiguration := [];
    }

    /**
      Startup: with file configuration on, the file is read (a missing or unreadable file
      fails) and the cache replaced; then the refresh task is scheduled when the interval is
      positive, which the result reports.
    */
    method Run(file: ConfigFile) returns (r: Result<bool, WatchError>)
      modifies this
      ensures fileEnabled && !file.Present? ==> r == Err(ReadFailed) && fileConfiguration == old(fileConfiguration)
      ensures fileEnabled && file.Present? ==> fileConfiguration == NormalizeLines(file.lines) && r == Ok(refreshTime > 0)
      ensures !fileEnabled ==> fileConfiguration == old(fileConfiguration) && r == Ok(refreshTime > 0)
    {
      if fileEnabled {
        if !file.Present? {
          return Err(ReadFailed);
        }
        fileConfiguration := NormalizeLines(file.lines);
      }
      return Ok(refreshTime > 0);
    }

    /**
      One refresh: the cache is replaced only when file configuration is on and the file
      exists; the result says whether it was replaced, and an unreadable file fails.
    */
    method WatchConfigFile(file: ConfigFile) returns (r: Result<bool, WatchError>)
      modifies this
      ensures fileEnabled && file.Present? ==> fileConfiguration == NormalizeLines(file.lines) && r == Ok(true)
      ensures !(fileEnabled && file.Present?) ==> fileConfiguration == old(fileConfiguration)
      ensures r == Err(ReadFailed) <==> fileEnabled && file.Unreadable?
      ensures r == Ok(false) <==> !fileEnabled || file.Missing?
    {
      if fileEnabled {
        match file
        case Missing => return Ok(false);
        case Unreadable => return Err(ReadFailed);
        case Present(lines) =>
          fileConfiguration := NormalizeLines(lines);
          return Ok(true);
      }
      return Ok(false);
    }
  }
}
