/**
  The loader that recomputes the set of active versions from the configured whitelist
  and blacklist and the versions refused during registration.
*/
module EnvironmentLoader {
  import opened Wrappers

  /**
    The active set: whitelisted versions that are neither blacklisted nor, when a list of
    unactivated versions is given, unactivated.
  */
  function ActiveSet(whitelist: seq<string>, blacklist: seq<string>, unactivated: Option<seq<string>>): (r: set<string>)
    ensures forall v :: v in r <==>
      && v in whitelist
      && v !in blacklist
      && (unactivated.Some? ==> v !in unactivated.value)
  {
    var base := (set v | v in whitelist) - (set v | v in blacklist);
    match unactivated
    case None => base
    case Some(u) => base - (set v | v in u)
  }

  /** The blacklist wins, and the active set never leaves the whitelist. */
  lemma ActiveSetBounds(whitelist: seq<string>, blacklist: seq<string>, unactivated: Option<seq<string>>)
    ensures forall v :: v in blacklist ==> v !in ActiveSet(whitelist, blacklist, unactivated)
    ensures ActiveSet(whitelist, blacklist, unactivated) <= set v | v in whitelist
  {
  }

  /** A missing list and an empty list of unactivated versions both leave whitelist minus blacklist. */
  lemma NoUnactivatedLeavesFilteredWhitelist(whitelist: seq<string>, blacklist: seq<string>)
    ensures ActiveSet(whitelist, blacklist, None) == ActiveSet(whitelist, blacklist, Some([]))
    ensures ActiveSet(whitelist, blacklist, None) == (set v | v in whitelist) - (set v | v in blacklist)
  {
  }

  class VersionEnvironmentLoader {
    const includeVersions: seq<string>
    const excludeVersions: seq<string>
    var activeVersions: set<string>

    constructor (includeVersions: seq<string>, excludeVersions: seq<string>)
      ensures this.includeVersions == includeVersions && this.excludeVersions == excludeVersions
      ensures activeVersions == {}
    {
      this.includeVersions := includeVersions;
      this.excludeVersions := excludeVersions;
      activeVersions := {};
    }

    /**
      Clears the active set and rebuilds it: add the whitelist, remove the blacklist, then,
      when the argument is present and non-empty, remove the unactivated versions. The new
      set does not depend on the old one, so two calls with the same argument agree.
    */
    method RefreshActiveVersions(unactivatedVersions: Option<seq<string>>)
      modifies this
      ensures activeVersions == ActiveSet(includeVersions, excludeVersions, unactivatedVersions)
    {
      activeVersions := {};
      for i := 0 to |includeVersions|
        invariant activeVersions == set v | v in includeVersions[..i]
      {
        assert includeVersions[..i + 1] == includeVersions[..i] + [includeVersions[i]];
        activeVersions := activeVersions + {includeVersions[i]};
      }
      assert includeVersions[..|includeVersions|] == includeVersions;
      for i := 0 to |excludeVersions|
        invariant activeVersions == (set v | v in includeVersions) - (set v | v in excludeVersions[..i])
      {
        assert excludeVersions[..i + 1] == excludeVersions[..i] + [excludeVersions[i]];
        activeVersions := activeVersions - {excludeVersions[i]};
      }
      assert excludeVersions[..|excludeVersions|] == excludeVersions;
      if unactivatedVersions.None? || unactivatedVersions.value == [] {
        return;
      }
      var u := unactivatedVersions.value;
      for i := 0 to |u|
        invariant activeVersions ==
          (set v | v in includeVersions) - (set v | v in excludeVersions) - (set v | v in u[..i])
      {
        assert u[..i + 1] == u[..i] + [u[i]];
        activeVersions := activeVersions - {u[i]};
      }
      assert u[..|u|] == u;
    }
  }
}
