/**
  The multi-version base properties: whether versioning is on, the version whitelist
  (`Include`) and blacklist (`exclude`), the cap on registered versions and the
  tie-break mode for endpoint priorities.
*/
module VersionPolicy {

  datatype Properties = Properties(
    start: bool,              // whether version prefixing is enabled at all
    whitelist: seq<string>,   // `Include`: versions that may register
    blacklist: seq<string>,   // `exclude`: wins over the whitelist
    maxNum: int,              // most distinct version keys the index may hold
    sortingMethod: string)    // "MAX" or "MIN", compared ignoring case

  /** The values the properties object holds before any configuration is bound. */
  const Defaults: Properties := Properties(true, [], [], 10, "MAX")

  /**
    Whether `version` may register the endpoint declared at `path`: the blacklist is
    consulted first, then the whitelist. The path only appears in the diagnostic text.
  */
  function VersionIsOk(p: Properties, version: string, path: string): (ok: bool)
    ensures ok <==> version !in p.blacklist && version in p.whitelist
    ensures version in p.blacklist ==> !ok
    ensures p.whitelist == [] ==> !ok
  {
    if |p.blacklist| != 0 && version in p.blacklist then
      version !in p.blacklist
    else if |p.whitelist| != 0 && version in p.whitelist then
      true
    else
      false
  }

  /** Under the defaults the whitelist is empty, so no versioned endpoint is admitted. */
  lemma DefaultsAdmitNoVersion(version: string, path: string)
    ensures Defaults.start && Defaults.maxNum == 10 && Defaults.sortingMethod == "MAX"
    ensures Defaults.whitelist == [] && Defaults.blacklist == []
    ensures !VersionIsOk(Defaults, version, path)
  {
  }
}
