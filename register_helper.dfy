/**
  The default registration helper: the priority tie-break, the rewriting of a mapping onto
  its version-prefixed path, and the extraction of a mapping's declared path. Also the
  request-mapping shape these operate on.
*/
module RegisterHelper {
  import opened Wrappers
  import opened DualMaps

  datatype HttpMethod = GET | HEAD | POST | PUT | PATCH | DELETE | OPTIONS | TRACE

  /** A parsed segment-tree pattern; only the text it was parsed from is visible here. */
  datatype PathPattern = PathPattern(text: string)

  /**
    A request mapping reduced to what the core reads: its Ant-style pattern strings (absent
    when the mapping uses parsed patterns), its parsed patterns (absent when it uses Ant
    strings) and its HTTP methods. Pattern collections are listed in iteration order.
  */
  datatype Mapping = Mapping(
    antPatterns: Option<seq<string>>,
    pathPatterns: Option<seq<PathPattern>>,
    methods: set<HttpMethod>)

  datatype HelperError =
    | NoPatternCondition      // neither kind of pattern condition is present
    | NoSuchElement           // a present pattern condition lists no pattern
    | SortingMethodInvalid    // the tie-break mode is neither MAX nor MIN

  /**
    The character `c` compared case-insensitively against an upper-case ASCII letter: ASCII
    lower case folds to upper case, and the dotless i and the dotted capital I both fold
    to 'I', as a case-insensitive string comparison in the source language treats them.
  */
  function FoldUpper(c: char): (u: char)
    ensures 'a' <= c <= 'z' ==> u as int == c as int - 32
    ensures ('A' <= u <= 'Z') && !('a' <= c <= 'z') && u != 'I' ==> u == c
  {
    if 'a' <= c <= 'z' then (c as int - 32) as char
    else if c == '\U{0131}' || c == '\U{0130}' then 'I'
    else c
  }

  /** Whether `s` equals the upper-case ASCII `keyword` ignoring case. */
  predicate EqualsIgnoreCase(s: string, keyword: string)
  {
    |s| == |keyword| && forall i :: 0 <= i < |s| ==> FoldUpper(s[i]) == keyword[i]
  }

  predicate IsMaxMode(mode: string) { EqualsIgnoreCase(mode, "MAX") }
  predicate IsMinMode(mode: string) { EqualsIgnoreCase(mode, "MIN") }

  /** No mode string selects both strategies. */
  lemma ModesExclusive(mode: string)
    ensures !(IsMaxMode(mode) && IsMinMode(mode))
  {
    if IsMaxMode(mode) {
      assert FoldUpper(mode[1]) == 'A';
    }
  }

  /** Every case spelling of the two mode names is accepted. */
  lemma ModesIgnoreCase()
    ensures IsMaxMode("MAX") && IsMaxMode("max") && IsMaxMode("Max")
    ensures IsMinMode("MIN") && IsMinMode("min") && IsMinMode("mIn")
    ensures !IsMaxMode("MAXIMUM") && !IsMinMode("")
  {
  }

  /**
    Whether priority `a` outranks priority `b`: under MAX the larger value wins, under MIN
    the smaller; any other mode is a configuration failure.
  */
  function SortingMethod(mode: string, a: int, b: int): (r: Result<bool, HelperError>)
    ensures r.Err? <==> !IsMaxMode(mode) && !IsMinMode(mode)
    ensures r.Err? ==> r.error == SortingMethodInvalid
    ensures IsMaxMode(mode) ==> r == Ok(a > b)
    ensures IsMinMode(mode) ==> r == Ok(a < b)
  {
    ModesExclusive(mode);
    if IsMaxMode(mode) then Ok(a > b)
    else if IsMinMode(mode) then Ok(b > a)
    else Err(SortingMethodInvalid)
  }

  /**
    For a valid mode the tie-break is a strict order: no priority outranks itself, two
    priorities never outrank each other, and of two different priorities one outranks the
    other. So an equal priority is the only way for neither to win.
  */
  lemma SortingMethodIsStrict(mode: string, a: int, b: int)
    requires IsMaxMode(mode) || IsMinMode(mode)
    ensures SortingMethod(mode, a, a) == Ok(false)
    ensures !(SortingMethod(mode, a, b) == Ok(true) && SortingMethod(mode, b, a) == Ok(true))
    ensures a != b ==> SortingMethod(mode, a, b) == Ok(true) || SortingMethod(mode, b, a) == Ok(true)
    ensures SortingMethod(mode, a, b) == Ok(false) && SortingMethod(mode, b, a) == Ok(false) ==> a == b
  {
  }

  /**
    The declared path of a mapping: the first Ant pattern when there is an Ant pattern
    condition, otherwise the first parsed pattern's text; a failure when neither exists.
  */
  function GetMethodPath(m: Mapping): (r: Result<string, HelperError>)
    ensures m.antPatterns.Some? && m.antPatterns.value != [] ==> r == Ok(m.antPatterns.value[0])
    ensures m.antPatterns.None? && m.pathPatterns.Some? && m.pathPatterns.value != [] ==>
              r == Ok(m.pathPatterns.value[0].text)
    ensures m.antPatterns.None? && m.pathPatterns.None? ==> r == Err(NoPatternCondition)
    ensures r.Err? <==>
              (m.antPatterns.Some? && m.antPatterns.value == []) ||
              (m.antPatterns.None? && (m.pathPatterns.None? || m.pathPatterns.value == []))
  {
    match m.antPatterns
    case Some(ps) => if ps != [] then Ok(ps[0]) else Err(NoSuchElement)
    case None =>
      match m.pathPatterns
      case Some(pps) => if pps != [] then Ok(pps[0].text) else Err(NoSuchElement)
      case None => Err(NoPatternCondition)
  }

  /** The version index key of a version: the version name behind a slash. */
  function VersionKey(version: string): (k: string)
    ensures |k| == |version| + 1 && k[0] == '/' && k[1..] == version
  {
    "/" + version
  }

  /**
    Builds the mapping registered for a versioned endpoint, whose only pattern is `path`
    and whose HTTP methods are the original mapping's, and records `path` under the
    version's key in the index.
  */
  method InterfaceInjection(mapping: Mapping, path: string, version: string, index: DualMap<string>)
    returns (injected: Mapping)
    modifies index
    ensures injected.antPatterns == Some([path]) && injected.pathPatterns.None?
    ensures injected.methods == mapping.methods
    ensures index.entries == Appended(old(index.entries), VersionKey(version), path)
  {
    injected := Mapping(Some([path]), None, mapping.methods);
    var _ := index.Put(VersionKey(version), path);
  }
}
