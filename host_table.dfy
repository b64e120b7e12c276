/**
  The host framework's live route table, reduced to what the routing engine relies on:
  registering a mapping fails when an equal mapping is already present, and a mapping can
  be unregistered. The sequence order is the order routes were registered in; where the
  engine iterates over the table it is handed an explicit iteration order.
*/
module HostTable {
  import opened Wrappers
  import opened RegisterHelper

  /** The identity of a handler method; the core registers and returns it, never calls it. */
  datatype HandlerRef = HandlerRef(id: nat)

  datatype Route = Route(mapping: Mapping, handler: HandlerRef)

  /** The host's table invariant: no two routes carry equal mappings. */
  ghost predicate NoDuplicateMappings(t: seq<Route>)
  {
    forall i, j :: 0 <= i < j < |t| ==> t[i].mapping != t[j].mapping
  }

  predicate HasMapping(t: seq<Route>, m: Mapping)
  {
    exists i :: 0 <= i < |t| && t[i].mapping == m
  }

  /**
    The table after the host registers `m` for `h`, or None when the host raises its
    duplicate-mapping fault because an equal mapping is already registered.
  */
  function Register(t: seq<Route>, m: Mapping, h: HandlerRef): (r: Option<seq<Route>>)
    ensures r.None? <==> HasMapping(t, m)
    ensures r.Some? ==> r.value == t + [Route(m, h)]
    ensures r.Some? && NoDuplicateMappings(t) ==> NoDuplicateMappings(r.value)
  {
    if HasMapping(t, m) then None else Some(t + [Route(m, h)])
  }

  /** The table without the routes whose mapping is `m`. */
  function RemoveMapping(t: seq<Route>, m: Mapping): (r: seq<Route>)
    ensures forall x :: x in r <==> x in t && x.mapping != m
    ensures |r| <= |t|
    ensures !HasMapping(t, m) ==> r == t
  {
    if t == [] then []
    else
      var rest := RemoveMapping(t[1..], m);
      assert forall x :: x in t <==> x == t[0] || x in t[1..];
      assert !HasMapping(t, m) ==> !HasMapping(t[1..], m) by {
        if HasMapping(t[1..], m) {
          var i :| 0 <= i < |t[1..]| && t[1..][i].mapping == m;
          assert t[i + 1].mapping == m;
        }
      }
      if t[0].mapping == m then rest else [t[0]] + rest
  }

  /** Removing routes keeps the table free of duplicate mappings. */
  lemma {:induction false} RemoveMappingKeepsUnique(t: seq<Route>, m: Mapping)
    requires NoDuplicateMappings(t)
    ensures NoDuplicateMappings(RemoveMapping(t, m))
    decreases |t|
  {
    if t != [] {
      var rest := RemoveMapping(t[1..], m);
      assert NoDuplicateMappings(t[1..]) by {
        forall i, j | 0 <= i < j < |t[1..]| ensures t[1..][i].mapping != t[1..][j].mapping {
          assert t[1..][i] == t[i + 1] && t[1..][j] == t[j + 1];
        }
      }
      RemoveMappingKeepsUnique(t[1..], m);
      if t[0].mapping != m {
        forall x | x in rest ensures x.mapping != t[0].mapping {
          var k :| 1 <= k < |t| && t[k] == x;
        }
        var r := [t[0]] + rest;
        forall i, j | 0 <= i < j < |r| ensures r[i].mapping != r[j].mapping {
          if i == 0 {
            assert r[j] in rest;
          } else {
            assert r[i] == rest[i - 1] && r[j] == rest[j - 1];
          }
        }
      }
    }
  }

  /** In a table with unique mappings, removing a present mapping removes exactly one route. */
  lemma {:induction false} RemoveMappingRemovesOne(t: seq<Route>, m: Mapping)
    requires NoDuplicateMappings(t)
    requires HasMapping(t, m)
    ensures |RemoveMapping(t, m)| == |t| - 1
    decreases |t|
  {
    if t[0].mapping == m {
      assert !HasMapping(t[1..], m);
    } else {
      var i :| 0 <= i < |t| && t[i].mapping == m;
      assert t[1..][i - 1].mapping == m;
      assert NoDuplicateMappings(t[1..]) by {
        forall a, b | 0 <= a < b < |t[1..]| ensures t[1..][a].mapping != t[1..][b].mapping {
          assert t[1..][a] == t[a + 1] && t[1..][b] == t[b + 1];
        }
      }
      RemoveMappingRemovesOne(t[1..], m);
    }
  }

  /** Whether `m` has an Ant pattern condition that lists `path`. */
  predicate HasPath(m: Mapping, path: string)
  {
    m.antPatterns.Some? && path in m.antPatterns.value
  }

  /** The position of the first route, in iteration order `order`, whose Ant patterns list `path`. */
  function FirstWithPathIndex(order: seq<Route>, path: string): (i: int)
    ensures 0 <= i <= |order|
    ensures forall j :: 0 <= j < i ==> !HasPath(order[j].mapping, path)
    ensures i < |order| ==> HasPath(order[i].mapping, path)
  {
    if order == [] then 0
    else if HasPath(order[0].mapping, path) then 0
    else 1 + FirstWithPathIndex(order[1..], path)
  }

  /** The first mapping, in iteration order `order`, whose Ant patterns list `path`. */
  function FirstWithPath(order: seq<Route>, path: string): (r: Option<Mapping>)
    ensures r.None? <==> forall i :: 0 <= i < |order| ==> !HasPath(order[i].mapping, path)
    ensures r.Some? ==> var i := FirstWithPathIndex(order, path);
                        i < |order| && r.value == order[i].mapping && HasPath(r.value, path)
  {
    var i := FirstWithPathIndex(order, path);
    if i < |order| then Some(order[i].mapping) else None
  }

  /**
    The table after unregistering by path: the first route in iteration order `order` whose
    Ant patterns list `path` is removed; the table is unchanged when there is none.
  */
  function UnregisterPath(t: seq<Route>, order: seq<Route>, path: string): seq<Route>
  {
    match FirstWithPath(order, path)
    case None => t
    case Some(m) => RemoveMapping(t, m)
  }

  /** At most one route is removed when mappings are unique, and it is the first one listing the path. */
  lemma UnregisterPathRemovesFirst(t: seq<Route>, order: seq<Route>, path: string)
    requires NoDuplicateMappings(t)
    requires multiset(order) == multiset(t)
    ensures NoDuplicateMappings(UnregisterPath(t, order, path))
    ensures FirstWithPath(order, path).None? ==> UnregisterPath(t, order, path) == t
    ensures FirstWithPath(order, path).Some? ==>
              var m := FirstWithPath(order, path).value;
              && HasMapping(t, m)
              && |UnregisterPath(t, order, path)| == |t| - 1
              && forall x :: x in UnregisterPath(t, order, path) <==> x in t && x.mapping != m
  {
    match FirstWithPath(order, path)
    case None =>
    case Some(m) =>
      RemoveMappingKeepsUnique(t, m);
      var i := FirstWithPathIndex(order, path);
      assert order[i] in multiset(t);
      var k :| 0 <= k < |t| && t[k] == order[i];
      RemoveMappingRemovesOne(t, m);
  }
}
