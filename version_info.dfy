/**
  The list of version descriptions kept together with a name-to-enabled map (`dp`) so
  that a version's state can be looked up by name.
*/
module VersionInfo {
  import opened Wrappers

  /** The part of a version description this model needs: its name and whether it is enabled. */
  datatype VersionMeta = VersionMeta(name: string, enabled: bool)

  datatype ListError = IndexOutOfBounds

  const StatusOk: int := 1
  const StatusDisabled: int := 2

  /**
    The status code of `name` in the state map: unknown and enabled names are fine (1),
    names recorded as disabled are refused (2).
  */
  function Status(dp: map<string, bool>, name: string): (code: int)
    ensures code == StatusOk || code == StatusDisabled
    ensures code == StatusDisabled <==> name in dp && !dp[name]
    ensures name !in dp ==> code == StatusOk
  {
    if name !in dp then StatusOk
    else if dp[name] then StatusOk else StatusDisabled
  }

  /** The state map after recording the elements of `c` one after another. */
  function PutAll(dp: map<string, bool>, c: seq<VersionMeta>): map<string, bool>
    decreases |c|
  {
    if c == [] then dp else PutAll(dp[c[0].name := c[0].enabled], c[1..])
  }

  /** The names of the elements of `c`. */
  function Names(c: seq<VersionMeta>): set<string>
  {
    set i | 0 <= i < |c| :: c[i].name
  }

  /** Recording `a` then `b` is recording `a + b`. */
  lemma {:induction false} PutAllConcat(dp: map<string, bool>, a: seq<VersionMeta>, b: seq<VersionMeta>)
    ensures PutAll(dp, a + b) == PutAll(PutAll(dp, a), b)
    decreases |a|
  {
    if a != [] {
      assert (a + b)[0] == a[0] && (a + b)[1..] == a[1..] + b;
      PutAllConcat(dp[a[0].name := a[0].enabled], a[1..], b);
    } else {
      assert a + b == b;
    }
  }

  /** Recording elements adds exactly their names to the key set. */
  lemma {:induction false} PutAllKeys(dp: map<string, bool>, c: seq<VersionMeta>)
    ensures PutAll(dp, c).Keys == dp.Keys + Names(c)
    decreases |c|
  {
    if c != [] {
      PutAllKeys(dp[c[0].name := c[0].enabled], c[1..]);
      assert Names(c) == {c[0].name} + Names(c[1..]) by {
        forall n | n in Names(c) ensures n in {c[0].name} + Names(c[1..]) {
          var i :| 0 <= i < |c| && c[i].name == n;
          if i > 0 { assert c[1..][i - 1].name == n; }
        }
        forall n | n in Names(c[1..]) ensures n in Names(c) {
          var i :| 0 <= i < |c[1..]| && c[1..][i].name == n;
          assert c[i + 1].name == n;
        }
      }
    }
  }

  /** Names that `c` does not mention keep their entry. */
  lemma {:induction false} PutAllUntouched(dp: map<string, bool>, c: seq<VersionMeta>, n: string)
    requires forall i :: 0 <= i < |c| ==> c[i].name != n
    ensures n in PutAll(dp, c) <==> n in dp
    ensures n in dp ==> PutAll(dp, c)[n] == dp[n]
    decreases |c|
  {
    if c != [] {
      PutAllUntouched(dp[c[0].name := c[0].enabled], c[1..], n);
    }
  }

  /** The last element carrying a name decides that name's entry. */
  lemma {:induction false} PutAllLastWins(dp: map<string, bool>, c: seq<VersionMeta>, j: int)
    requires 0 <= j < |c|
    requires forall i :: j < i < |c| ==> c[i].name != c[j].name
    ensures c[j].name in PutAll(dp, c) && PutAll(dp, c)[c[j].name] == c[j].enabled
    decreases |c|
  {
    if j == 0 {
      var d := dp[c[0].name := c[0].enabled];
      forall i | 0 <= i < |c[1..]| ensures c[1..][i].name != c[0].name {
        assert c[1..][i] == c[i + 1];
      }
      PutAllUntouched(d, c[1..], c[0].name);
    } else {
      forall i | j - 1 < i < |c[1..]| ensures c[1..][i].name != c[1..][j - 1].name {
        assert c[1..][i] == c[i + 1];
      }
      PutAllLastWins(dp[c[0].name := c[0].enabled], c[1..], j - 1);
    }
  }

  /** The names in `order` whose recorded state is `state`, in the order given. */
  function NamesInState(dp: map<string, bool>, order: seq<string>, state: bool): (r: seq<string>)
    ensures forall n :: n in r <==> n in order && n in dp && dp[n] == state
    ensures |r| <= |order|
  {
    if order == [] then []
    else
      var rest := NamesInState(dp, order[1..], state);
      assert forall n :: n in order <==> n == order[0] || n in order[1..];
      if order[0] in dp && dp[order[0]] == state then [order[0]] + rest else rest
  }

  /** `order` lists every key of `dp` exactly once: one admissible iteration order of the map. */
  ghost predicate EnumeratesKeys(dp: map<string, bool>, order: seq<string>)
  {
    && (forall n :: n in order <==> n in dp)
    && (forall i, j :: 0 <= i < j < |order| ==> order[i] != order[j])
  }

  /** The names of the enabled versions, in the map's iteration order `order`. */
  function EnabledVersions(dp: map<string, bool>, order: seq<string>): (r: seq<string>)
    requires EnumeratesKeys(dp, order)
    ensures forall n :: n in r <==> n in dp && dp[n]
  {
    NamesInState(dp, order, true)
  }

  /** The names of the disabled versions, in the map's iteration order `order`. */
  function UnableVersions(dp: map<string, bool>, order: seq<string>): (r: seq<string>)
    requires EnumeratesKeys(dp, order)
    ensures forall n :: n in r <==> n in dp && !dp[n]
  {
    NamesInState(dp, order, false)
  }

  /** The enabled and the disabled names are disjoint and together are exactly the map's keys. */
  lemma EnabledAndUnablePartitionKeys(dp: map<string, bool>, order: seq<string>)
    requires EnumeratesKeys(dp, order)
    ensures forall n :: !(n in EnabledVersions(dp, order) && n in UnableVersions(dp, order))
    ensures forall n :: n in dp <==> n in EnabledVersions(dp, order) || n in UnableVersions(dp, order)
  {
  }

  /** Removing by index drops the name from the map even when another element still carries it. */
  lemma RemoveCanDesynchronise()
    ensures var items := [VersionMeta("v1", true), VersionMeta("v1", false)];
            PutAll(map[], items) - {items[0].name} != PutAll(map[], items[1..])
  {
    var items := [VersionMeta("v1", true), VersionMeta("v1", false)];
    assert PutAll(map[], items[1..]) == map["v1" := false];
  }

  class VersionInfoList {
    var items: seq<VersionMeta>
    var dp: map<string, bool>

    /** The map holds exactly what recording the list from the start would give. */
    ghost predicate Synced()
      reads this
    {
      dp == PutAll(map[], items)
    }

    constructor ()
      ensures items == [] && dp == map[] && Synced()
    {
      items := [];
      dp := map[];
    }

    /** Records the element's state under its name, overwriting any earlier entry, and appends it. */
    method Add(o: VersionMeta) returns (added: bool)
      modifies this
      ensures dp == old(dp)[o.name := o.enabled]
      ensures items == old(items) + [o]
      ensures added
      ensures old(Synced()) ==> Synced()
    {
      dp := dp[o.name := o.enabled];
      items := items + [o];
      added := true;
      PutAllConcat(map[], old(items), [o]);
    }

    /** Records every element's state in order, then appends them all; reports whether the list grew. */
    method AddAll(c: seq<VersionMeta>) returns (changed: bool)
      modifies this
      ensures dp == PutAll(old(dp), c)
      ensures items == old(items) + c
      ensures changed <==> c != []
      ensures old(Synced()) ==> Synced()
    {
      var i := 0;
      while i < |c|
        invariant 0 <= i <= |c|
        invariant items == old(items)
        invariant PutAll(dp, c[i..]) == PutAll(old(dp), c)
      {
        assert c[i..][1..] == c[i + 1..];
        dp := dp[c[i].name := c[i].enabled];
        i := i + 1;
      }
      assert c[i..] == [];
      items := items + c;
      changed := c != [];
      PutAllConcat(map[], old(items), c);
    }

    /**
      Removes the element at `index` and its name's entry. An index outside the list fails
      before the map is touched.
    */
    method Remove(index: int) returns (r: Result<VersionMeta, ListError>)
      modifies this
      ensures !(0 <= index < |old(items)|) ==>
                r == Err(IndexOutOfBounds) && items == old(items) && dp == old(dp)
      ensures 0 <= index < |old(items)| ==>
                && r == Ok(old(items)[index])
                && dp == old(dp) - {old(items)[index].name}
                && items == old(items)[..index] + old(items)[index + 1..]
    {
      if !(0 <= index < |items|) {
        return Err(IndexOutOfBounds);
      }
      var removed := items[index];
      dp := dp - {removed.name};
      items := items[..index] + items[index + 1..];
      r := Ok(removed);
    }
  }

  /** After only additions, the map's keys are exactly the names in the list. */
  lemma SyncedKeys(items: seq<VersionMeta>)
    ensures PutAll(map[], items).Keys == Names(items)
  {
    PutAllKeys(map[], items);
  }
}
