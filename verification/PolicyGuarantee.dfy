/** For exactly which policy tables the audits of backend/src/ragz/api/policy.py guarantee that no route
    goes unguarded. */
module PolicyGuarantee {
  import opened Prelude
  import opened RouteTree
  import opened RoutePolicy

  /** No gap of this entry is ever reported. */
  predicate Excused(t: Tables, key: Key) { key in t.exceptions || ReadBack(t, key) }

  /** Some router leaves both audits empty: every entry is excused, or can be mounted under its key
      without complaint. */
  predicate Cleanable(t: Tables) {
    forall k | k in t.policy :: Excused(t, k) || (Mountable(k) && (Classified(t, k) || IsDocs(k.1)))
  }

  /** No two mounted routes answer to the same key. */
  ghost predicate OnePerKey(found: seq<Found>) {
    forall i, j, key :: 0 <= i < j < |found| && HasKey(found[i], key) ==> !HasKey(found[j], key)
  }

  /** An audited router with an unguarded route; with one route per key when `distinct`. */
  ghost predicate Violates(t: Tables, distinct: bool, schema: Schema, nodes: seq<Node>, i: nat, key: Key)
    requires ValidTables(t)
  {
    var found := ApiRoutes(nodes, "");
    && Audited(t, schema, nodes) && i < |found| && HasKey(found[i], key)
    && (distinct ==> OnePerKey(found)) && !Guarded(t, found[i], key)
  }

  ghost predicate Sound(t: Tables, distinct: bool)
    requires ValidTables(t)
  {
    !exists schema, nodes, i, key :: Violates(t, distinct, schema, nodes, i, key)
  }

  lemma OneIsLast(found: seq<Found>, i: nat, key: Key)
    requires OnePerKey(found) && i < |found| && HasKey(found[i], key)
    ensures IsLast(found, i, key)
  {
  }

  // ---------------------------------------------------------------- audited routers have clean tables

  lemma {:induction false} IndexCame(found: seq<Found>, n: nat, key: Key)
    requires n <= |found| && key in Index(found, n)
    ensures exists i :: 0 <= i < n && HasKey(found[i], key)
    decreases n
  {
    var (path, route) := found[n - 1];
    assert route.methods[..|route.methods|] == route.methods;
    IndexMethodsIs(Index(found, n - 1), NormalizePath(path), route, |route.methods|, key);
    if HasKey(found[n - 1], key) {
    } else {
      IndexCame(found, n - 1, key);
    }
  }

  lemma AuditedIsCleanable(t: Tables, schema: Schema, nodes: seq<Node>)
    requires ValidTables(t) && Audited(t, schema, nodes)
    ensures Cleanable(t)
  {
    hide ApiRoutes, PolicyGaps, UnmodeledGaps, IsDocs, ReadBack, Index, NormalizePath, Classified;
    var found := ApiRoutes(nodes, "");
    UnmodeledAuditExactly(t, nodes);
    forall k | k in t.policy && !Excused(t, k) ensures Mountable(k) && (Classified(t, k) || IsDocs(k.1)) {
      assert Enforced(t, Index(found, |found|), k);
      IndexCame(found, |found|, k);
      var i :| 0 <= i < |found| && HasKey(found[i], k);
      NormalizeIdempotent(found[i].0);
      RouteClassified(t, schema, nodes, found[i], k);
    }
  }

  // ---------------------------------------------------------------- a router that passes with a bare route

  const BARE := Dependant(None, [])

  function Guard(action: string): Dependant { Dependant(None, [Dependant(Some(Call(Some(action))), [])]) }

  lemma GuardWires(action: string)
    ensures Wired(Guard(action), action) && !Wired(BARE, action)
  {
    CallsFindWired(Guard(action), action);
    CallsFindWired(BARE, action);
    var sub := Dependant(Some(Call(Some(action))), []);
    assert [sub][1..] == [];
    assert DependantCalls(sub) == [];
    assert CallsOf([sub])[0] == Call(Some(action));
  }

  /** A route that requires nothing, and one that requires what its entry declares. */
  function Bare(key: Key): Route { Route(key.1, [key.0], false, BARE) }

  function Fitting(t: Tables, key: Key): Route
    requires key in t.policy
  {
    Route(key.1, [key.0], IsDocs(key.1), Guard(t.policy[key]))
  }

  /** Fitting routes for the entries that need one. */
  function Mounted(t: Tables, n: nat): seq<Route>
    requires n <= |t.order| && forall k :: k in t.order ==> k in t.policy
  {
    if n == 0 then []
    else Mounted(t, n - 1) + if Excused(t, t.order[n - 1]) then [] else [Fitting(t, t.order[n - 1])]
  }

  function Leaves(routes: seq<Route>): seq<Node> {
    if routes == [] then [] else [Leaf(routes[0])] + Leaves(routes[1..])
  }

  lemma {:induction false} LeavesWalk(routes: seq<Route>)
    ensures |ApiRoutes(Leaves(routes), "")| == |routes|
    ensures forall i :: 0 <= i < |routes| ==> ApiRoutes(Leaves(routes), "")[i] == (routes[i].path, routes[i])
    decreases |routes|
  {
    if routes != [] {
      LeavesWalk(routes[1..]);
      assert Leaves(routes)[1..] == Leaves(routes[1..]);
      assert "" + routes[0].path == routes[0].path;
      assert NodeRoutes(Leaf(routes[0]), "") == [(routes[0].path, routes[0])];
      assert ApiRoutes(Leaves(routes), "") == [(routes[0].path, routes[0])] + ApiRoutes(Leaves(routes[1..]), "");
    }
  }

  /** The documentation paths among the entries, under every method. */
  function DocsSchema(t: Tables, n: nat): Schema
    requires n <= |t.order|
  {
    if n == 0 then []
    else DocsSchema(t, n - 1)
         + if IsDocs(t.order[n - 1].1) then [(t.order[n - 1].1, ["get", "post", "put", "patch", "delete"])] else []
  }

  lemma {:induction false} MountedAre(t: Tables, n: nat)
    requires ValidTables(t) && n <= |t.order|
    ensures forall r :: r in Mounted(t, n) ==> exists k :: k in t.policy && !Excused(t, k) && r == Fitting(t, k)
    ensures forall j :: 0 <= j < n && !Excused(t, t.order[j]) ==> Fitting(t, t.order[j]) in Mounted(t, n)
  {
    hide Excused, Guard, IsDocs;
    if n > 0 {
      assert t.order[n - 1] in t.order;
      MountedAre(t, n - 1);
    }
  }

  lemma {:induction false} NotMountedYet(t: Tables, n: nat, key: Key)
    requires ValidTables(t) && n <= |t.order| && key in t.policy && forall j :: 0 <= j < n ==> t.order[j] != key
    ensures Fitting(t, key) !in Mounted(t, n)
  {
    hide Excused, Guard, IsDocs;
    if n > 0 {
      assert t.order[n - 1] in t.order;
      NotMountedYet(t, n - 1, key);
    }
  }

  lemma {:induction false} MountedOnce(t: Tables, n: nat)
    requires ValidTables(t) && n <= |t.order|
    ensures forall i, j :: 0 <= i < j < |Mounted(t, n)| ==> Mounted(t, n)[i] != Mounted(t, n)[j]
  {
    hide Excused, Guard, IsDocs, Fitting;
    if n > 0 {
      assert t.order[n - 1] in t.order;
      MountedOnce(t, n - 1);
      NotMountedYet(t, n - 1, t.order[n - 1]);
    }
  }

  lemma {:induction false} DocsListed(t: Tables, n: nat, j: nat)
    requires j < n <= |t.order| && IsDocs(t.order[j].1) && IsHttp(t.order[j].0)
    ensures Listed(DocsSchema(t, n), t.order[j].1, t.order[j].0)
    ensures forall k :: 0 <= k < |DocsSchema(t, n)| ==> IsDocs(DocsSchema(t, n)[k].0)
  {
    hide IsDocs;
    DocsOnly(t, n);
    var all := DocsSchema(t, n);
    if j < n - 1 {
      DocsListed(t, n - 1, j);
      var k, l :| 0 <= k < |DocsSchema(t, n - 1)| && 0 <= l < |DocsSchema(t, n - 1)[k].1|
        && ListedAt(DocsSchema(t, n - 1), k, l, t.order[j].1, t.order[j].0);
      assert all[k] == DocsSchema(t, n - 1)[k];
      assert ListedAt(all, k, l, t.order[j].1, t.order[j].0);
    } else {
      var k, methods := |all| - 1, ["get", "post", "put", "patch", "delete"];
      assert all[k] == (t.order[j].1, methods);
      var m := t.order[j].0;
      var l := if m == "GET" then 0 else if m == "POST" then 1 else if m == "PUT" then 2
               else if m == "PATCH" then 3 else 4;
      assert ListedAt(all, k, l, t.order[j].1, m);
    }
  }

  lemma {:induction false} DocsOnly(t: Tables, n: nat)
    requires n <= |t.order|
    ensures forall k :: 0 <= k < |DocsSchema(t, n)| ==> IsDocs(DocsSchema(t, n)[k].0)
  {
    hide IsDocs;
    if n > 0 { DocsOnly(t, n - 1); }
  }

  /** A bare route for one entry, then a fitting route for every entry that needs one. */
  function Routes(t: Tables, key: Key): seq<Route>
    requires forall k :: k in t.order ==> k in t.policy
  {
    [Bare(key)] + Mounted(t, |t.order|)
  }

  /** Behind the bare route every route answers to the entry it was made for and to no other. */
  lemma FitsOne(t: Tables, key: Key, j: nat, k: Key) returns (made: Key)
    requires ValidTables(t) && Cleanable(t) && 1 <= j < |Routes(t, key)|
    ensures made in t.policy && !Excused(t, made) && Mountable(made) && Routes(t, key)[j] == Fitting(t, made)
    ensures HasKey((Routes(t, key)[j].path, Routes(t, key)[j]), k) ==> k == made
  {
    hide Excused, Guard, IsDocs, NormalizePath, Classified;
    MountedAre(t, |t.order|);
    assert Routes(t, key)[j] in Mounted(t, |t.order|);
    made :| made in t.policy && !Excused(t, made) && Routes(t, key)[j] == Fitting(t, made);
  }

  lemma PolicySilent(t: Tables, key: Key)
    requires ValidTables(t) && Cleanable(t) && Exposed(t, key)
    ensures PolicyGaps(t, DocsSchema(t, |t.order|), Leaves(Routes(t, key))) == []
  {
    hide ApiRoutes, PolicyGaps, IsDocs, NormalizePath, Leaves, Excused;
    var routes, schema := Routes(t, key), DocsSchema(t, |t.order|);
    var found := ApiRoutes(Leaves(routes), "");
    LeavesWalk(routes);
    DocsOnly(t, |t.order|);
    forall f | f in found && !f.1.inSchema ensures HiddenOk(t, f) {
      var j :| 0 <= j < |found| && found[j] == f;
      if j > 0 {
        var made := FitsOne(t, key, j, key);
      }
    }
    PolicyAuditExactly(t, schema, Leaves(routes));
  }

  lemma VisibleListed(t: Tables, key: Key)
    requires ValidTables(t) && Cleanable(t)
    ensures ListsVisible(DocsSchema(t, |t.order|), ApiRoutes(Leaves(Routes(t, key)), ""))
  {
    hide ApiRoutes, IsDocs, NormalizePath, Leaves, Excused, DocsSchema, Listed;
    var routes, schema := Routes(t, key), DocsSchema(t, |t.order|);
    var found := ApiRoutes(Leaves(routes), "");
    LeavesWalk(routes);
    forall f, m | f in found && f.1.inSchema && m in f.1.methods && IsHttp(m)
      ensures Listed(schema, NormalizePath(f.0), m)
    {
      var j :| 0 <= j < |found| && found[j] == f;
      var made := FitsOne(t, key, j, key);
      assert made in t.order;
      var k :| 0 <= k < |t.order| && t.order[k] == made;
      DocsListed(t, |t.order|, k);
    }
  }

  /** The last of the first n routes under a key. */
  lemma {:induction false} LastUnder(found: seq<Found>, n: nat, key: Key, j: nat) returns (i: nat)
    requires j < n <= |found| && HasKey(found[j], key)
    ensures j <= i < n && HasKey(found[i], key) && forall m :: i < m < n ==> !HasKey(found[m], key)
    decreases n
  {
    hide HasKey;
    if HasKey(found[n - 1], key) {
      i := n - 1;
    } else {
      i := LastUnder(found, n - 1, key, j);
    }
  }

  lemma FilterSilent(t: Tables, key: Key)
    requires ValidTables(t) && Cleanable(t) && Exposed(t, key)
    ensures UnmodeledGaps(t, Leaves(Routes(t, key))) == Some([])
  {
    hide ApiRoutes, UnmodeledGaps, IsDocs, NormalizePath, Leaves, ReadBack, Index, Wired, Guard;
    var routes := Routes(t, key);
    var found := ApiRoutes(Leaves(routes), "");
    LeavesWalk(routes);
    UnmodeledAuditExactly(t, Leaves(routes));
    MountedAre(t, |t.order|);
    forall k | k in t.policy ensures Enforced(t, Index(found, |found|), k) {
      if !Excused(t, k) {
        assert k in t.order;
        var o :| 0 <= o < |t.order| && t.order[o] == k;
        var m :| 0 <= m < |Mounted(t, |t.order|)| && Mounted(t, |t.order|)[m] == Fitting(t, k);
        assert routes[m + 1] == Fitting(t, k);
        var i := LastUnder(found, |found|, k, m + 1);
        var made := FitsOne(t, key, i, k);
        IndexIsLast(found, |found|, i, k);
        GuardWires(t.policy[k]);
      }
    }
  }

  /** When its entry is read back as another's, the bare route and the fitting ones all answer to
      different keys. */
  lemma RoutesApart(t: Tables, key: Key)
    requires ValidTables(t) && Cleanable(t) && Exposed(t, key) && ReadBack(t, key)
    ensures OnePerKey(ApiRoutes(Leaves(Routes(t, key)), ""))
  {
    hide ApiRoutes, IsDocs, Leaves, ReadBack, NormalizePath, Mounted;
    var routes := Routes(t, key);
    var found := ApiRoutes(Leaves(routes), "");
    LeavesWalk(routes);
    MountedOnce(t, |t.order|);
    forall i, j, k | 0 <= i < j < |found| && HasKey(found[i], k) ensures !HasKey(found[j], k) {
      var made := FitsOne(t, key, j, k);
      if i > 0 {
        var other := FitsOne(t, key, i, k);
        assert routes[i] == Mounted(t, |t.order|)[i - 1] && routes[j] == Mounted(t, |t.order|)[j - 1];
      } else {
        assert found[0] == (key.1, Bare(key));
      }
    }
  }

  /** With a bare route mounted first both audits pass all the same, and nothing guards it. */
  lemma BareRoutePasses(t: Tables, key: Key)
    requires ValidTables(t) && Cleanable(t) && Exposed(t, key)
    ensures Violates(t, false, DocsSchema(t, |t.order|), Leaves(Routes(t, key)), 0, key)
    ensures ReadBack(t, key) ==> Violates(t, true, DocsSchema(t, |t.order|), Leaves(Routes(t, key)), 0, key)
  {
    hide ApiRoutes, PolicyGaps, UnmodeledGaps, IsDocs, NormalizePath, Leaves, ReadBack, ListsVisible, Wired;
    var routes := Routes(t, key);
    var found := ApiRoutes(Leaves(routes), "");
    LeavesWalk(routes);
    PolicySilent(t, key);
    VisibleListed(t, key);
    FilterSilent(t, key);
    GuardWires(t.policy[key]);
    assert found[0] == (key.1, Bare(key));
    if ReadBack(t, key) {
      RoutesApart(t, key);
    }
  }

  // ---------------------------------------------------------------- the exact guarantee

  /** For which tables an empty pair of audits proves every route guarded. Among routers with one route
      per key: exactly when no exposed entry is read back as a catalogued key, or no router passes the
      audits at all. Among all routers: exactly when there is no exposed entry, or again none passes. */
  lemma GuaranteeExactly(t: Tables)
    requires ValidTables(t)
    ensures Sound(t, true) <==> !(Cleanable(t) && exists key :: Mistaken(t, key))
    ensures Sound(t, false) <==> !(Cleanable(t) && exists key :: Exposed(t, key))
  {
    hide Audited, Guarded, Cleanable, ReadBack, Exposed, HasKey, IsLast, OnePerKey;
    forall schema, nodes, i, key, distinct | Violates(t, distinct, schema, nodes, i, key)
      ensures Cleanable(t) && Exposed(t, key) && (distinct ==> Mistaken(t, key))
    {
      AuditedIsCleanable(t, schema, nodes);
      UnguardedIsExposed(t, schema, nodes, i, key);
      if distinct && !Mistaken(t, key) {
        OneIsLast(ApiRoutes(nodes, ""), i, key);
        EveryRouteGuarded(t, schema, nodes, i, key);
      }
    }
    if Cleanable(t) {
      if key :| Mistaken(t, key) {
        BareRoutePasses(t, key);
      }
      if key :| Exposed(t, key) {
        BareRoutePasses(t, key);
      }
    }
  }

  // ---------------------------------------------------------------- the two holes

  lemma OneEntry(key: Key, action: string, roleOnly: set<Key>)
    requires Mountable(key) && key !in roleOnly
    ensures var t := Tables({}, map[key := action], [key], {action}, {}, roleOnly);
      ValidTables(t) && Cleanable(t) && Exposed(t, key)
      && Leaves(Routes(t, key)) == [Leaf(Bare(key))] + (if ReadBack(t, key) then [] else [Leaf(Fitting(t, key))])
  {
    hide NormalizePath, ReadBack, IsDocs;
    var t := Tables({}, map[key := action], [key], {action}, {}, roleOnly);
    assert Mounted(t, 1) == Mounted(t, 0) + if Excused(t, key) then [] else [Fitting(t, key)];
    assert Mounted(t, 0) == [];
    var rest := if Excused(t, key) then [] else [Fitting(t, key)];
    assert Mounted(t, 1) == rest;
    assert Routes(t, key)[1..] == rest;
    assert Leaves(Routes(t, key)) == [Leaf(Bare(key))] + Leaves(rest);
    LeavesOne(Fitting(t, key));
  }

  /** A path with a colon: the gap of its bare route is excused by the catalogue entry of the path before
      the colon, and both audits are empty. */
  lemma ColonHole(verb: string, path: string, suffix: string, action: string)
    requires IsHttp(verb) && Readable((verb, path)) && NormalizePath(path + ":" + suffix) == path + ":" + suffix
    ensures var key := (verb, path + ":" + suffix);
      var t := Tables({}, map[key := action], [key], {action}, {}, {(verb, path)});
      var nodes := [Leaf(Bare(key))];
      && PolicyGaps(t, DocsSchema(t, 1), nodes) == [] && UnmodeledGaps(t, nodes) == Some([])
      && ApiRoutes(nodes, "") == [(key.1, Bare(key))] && !Guarded(t, (key.1, Bare(key)), key)
  {
    hide NormalizePath, IsDocs, Readable, PolicyGaps, UnmodeledGaps, ApiRoutes, Guarded;
    var key := (verb, path + ":" + suffix);
    var t := Tables({}, map[key := action], [key], {action}, {}, {(verb, path)});
    assert |key.1| > |path|;
    ColonCutsPath(verb, path, suffix, "");
    OneEntry(key, action, {(verb, path)});
    assert [Leaf(Bare(key))] + [] == [Leaf(Bare(key))];
    BareRoutePasses(t, key);
    LeavesWalk([Bare(key)]);
    LeavesOne(Bare(key));
  }

  lemma LeavesOne(r: Route)
    ensures Leaves([r]) == [Leaf(r)]
  {
    assert [r][1..] == [];
  }

  /** Two routes under one key: the second is wired, the first requires nothing, and both audits are
      empty. */
  lemma DuplicateHole(key: Key, action: string)
    requires Mountable(key)
    ensures var t := Tables({}, map[key := action], [key], {action}, {}, {});
      var nodes := [Leaf(Bare(key)), Leaf(Fitting(t, key))];
      && PolicyGaps(t, DocsSchema(t, 1), nodes) == [] && UnmodeledGaps(t, nodes) == Some([])
      && ApiRoutes(nodes, "")[..1] == [(key.1, Bare(key))] && !Guarded(t, (key.1, Bare(key)), key)
  {
    hide NormalizePath, IsDocs, PolicyGaps, UnmodeledGaps, ApiRoutes, Guarded;
    var t := Tables({}, map[key := action], [key], {action}, {}, {});
    OneEntry(key, action, {});
    assert [Leaf(Bare(key))] + [Leaf(Fitting(t, key))] == [Leaf(Bare(key)), Leaf(Fitting(t, key))];
    BareRoutePasses(t, key);
    LeavesWalk(Routes(t, key));
  }
}
