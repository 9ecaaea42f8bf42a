/** The route-policy audits of backend/src/ragz/api/policy.py, over arbitrary tables and routers. */
module RoutePolicy {
  import opened Prelude
  import opened RouteTree

  /** (METHOD, path) */
  type Key = (string, string)

  /** The literal tables of the module; `order` is the iteration order of the policy dictionary. */
  datatype Tables = Tables(public: set<Key>, policy: map<Key, string>, order: seq<Key>,
                           permissions: set<string>, exceptions: set<Key>, roleOnly: set<Key>)

  /** A dictionary iterates over each of its keys once. */
  ghost predicate ValidTables(t: Tables) {
    && (forall k :: k in t.order <==> k in t.policy)
    && (forall i, j :: 0 <= i < j < |t.order| ==> t.order[i] != t.order[j])
  }

  const UPPER: map<string, string> :=
    map["get" := "GET", "post" := "POST", "put" := "PUT", "patch" := "PATCH", "delete" := "DELETE"]

  predicate IsHttp(m: string) { m in {"GET", "POST", "PUT", "PATCH", "DELETE"} }

  /** The paths of the generated schema with their lower-case methods. */
  type Schema = seq<(string, seq<string>)>

  predicate IsDocs(path: string) { path == "/api/openapi.json" || "/api/docs" <= path }

  function Quoted(s: string): string { "'" + s + "'" }

  // ---------------------------------------------------------------- audit_route_policy

  predicate Classified(t: Tables, key: Key) {
    key in t.public || (key in t.policy && t.policy[key] in t.permissions)
  }

  function Complaint(t: Tables, key: Key, hidden: bool): seq<string> {
    if Classified(t, key) then []
    else if key !in t.policy then
      [key.0 + " " + key.1 + if hidden then " (hidden route, include_in_schema=False)" else ""]
    else [key.0 + " " + key.1 + " (" + (if hidden then "hidden route, " else "")
          + "unknown action " + Quoted(t.policy[key]) + ")"]
  }

  function PathGaps(t: Tables, path: string, methods: seq<string>, n: nat): seq<string>
    requires n <= |methods|
  {
    if n == 0 then []
    else PathGaps(t, path, methods, n - 1)
         + if methods[n - 1] in UPPER then Complaint(t, (UPPER[methods[n - 1]], path), false) else []
  }

  function SchemaGaps(t: Tables, schema: Schema, n: nat): seq<string>
    requires n <= |schema|
  {
    if n == 0 then []
    else SchemaGaps(t, schema, n - 1)
         + if IsDocs(schema[n - 1].0) then [] else PathGaps(t, schema[n - 1].0, schema[n - 1].1, |schema[n - 1].1|)
  }

  function RouteGaps(t: Tables, path: string, methods: seq<string>, n: nat): seq<string>
    requires n <= |methods|
  {
    if n == 0 then []
    else RouteGaps(t, path, methods, n - 1)
         + if IsHttp(methods[n - 1]) then Complaint(t, (methods[n - 1], path), true) else []
  }

  function HiddenGaps(t: Tables, hidden: seq<Found>, n: nat): seq<string>
    requires n <= |hidden|
  {
    if n == 0 then []
    else HiddenGaps(t, hidden, n - 1)
         + RouteGaps(t, NormalizePath(hidden[n - 1].0), hidden[n - 1].1.methods, |hidden[n - 1].1.methods|)
  }

  function PolicyGaps(t: Tables, schema: Schema, nodes: seq<Node>): seq<string> {
    var hidden := HiddenRoutes(ApiRoutes(nodes, ""));
    SchemaGaps(t, schema, |schema|) + HiddenGaps(t, hidden, |hidden|)
  }

  method AuditSchema(t: Tables, schema: Schema) returns (gaps: seq<string>)
    ensures gaps == SchemaGaps(t, schema, |schema|)
  {
    gaps := [];
    for n := 0 to |schema|
      invariant gaps == SchemaGaps(t, schema, n)
    {
      var (path, methods) := schema[n];
      if path == "/api/openapi.json" || "/api/docs" <= path {
        continue;
      }
      ghost var before := gaps;
      for k := 0 to |methods|
        invariant gaps == before + PathGaps(t, path, methods, k)
      {
        if methods[k] !in UPPER {
          continue;
        }
        var key := (UPPER[methods[k]], path);
        if key in t.public {
          continue;
        }
        gaps := gaps + Complaint(t, key, false);
      }
    }
  }

  method AuditHidden(t: Tables, hidden: seq<Found>) returns (gaps: seq<string>)
    ensures gaps == HiddenGaps(t, hidden, |hidden|)
  {
    gaps := [];
    for n := 0 to |hidden|
      invariant gaps == HiddenGaps(t, hidden, n)
    {
      var path, methods := NormalizePath(hidden[n].0), hidden[n].1.methods;
      ghost var before := gaps;
      for k := 0 to |methods|
        invariant gaps == before + RouteGaps(t, path, methods, k)
      {
        if !IsHttp(methods[k]) {
          continue;
        }
        var key := (methods[k], path);
        if key in t.public {
          continue;
        }
        gaps := gaps + Complaint(t, key, true);
      }
    }
  }

  method AuditRoutePolicy(t: Tables, schema: Schema, nodes: seq<Node>) returns (gaps: seq<string>)
    ensures gaps == PolicyGaps(t, schema, nodes)
  {
    gaps := AuditSchema(t, schema);
    var more := AuditHidden(t, HiddenRoutes(ApiRoutes(nodes, "")));
    gaps := gaps + more;
  }

  // ---------------------------------------------------------------- audit_route_enforcement

  function IndexMethods(index: map<Key, Route>, path: string, route: Route, n: nat): map<Key, Route>
    requires n <= |route.methods|
  {
    if n == 0 then index
    else
      var before := IndexMethods(index, path, route, n - 1);
      if IsHttp(route.methods[n - 1]) then before[(route.methods[n - 1], path) := route] else before
  }

  /** The mounted route by key; a later route replaces an earlier one. */
  function Index(found: seq<Found>, n: nat): map<Key, Route>
    requires n <= |found|
  {
    if n == 0 then map[]
    else IndexMethods(Index(found, n - 1), NormalizePath(found[n - 1].0), found[n - 1].1, |found[n - 1].1.methods|)
  }

  function Message(key: Key, reason: string): string { key.0 + " " + key.1 + ":" + reason }

  const NO_ROUTE := " declared in ROUTE_POLICY but no mounted route found"

  function NotWired(action: string): string {
    " declares " + Quoted(action) + " but no require_action(" + Quoted(action) + ") in dependency graph"
  }

  function Enforcement(t: Tables, index: map<Key, Route>, key: Key): seq<string>
    requires key in t.policy
  {
    if key in t.exceptions then []
    else if key !in index then [Message(key, NO_ROUTE)]
    else if Call(Some(t.policy[key])) !in DependantCalls(index[key].dependant) then
      [Message(key, NotWired(t.policy[key]))]
    else []
  }

  function EnforcementGaps(t: Tables, index: map<Key, Route>, n: nat): seq<string>
    requires n <= |t.order| && forall k :: k in t.order ==> k in t.policy
  {
    if n == 0 then [] else EnforcementGaps(t, index, n - 1) + Enforcement(t, index, t.order[n - 1])
  }

  method AuditRouteEnforcement(t: Tables, nodes: seq<Node>) returns (gaps: seq<string>)
    requires ValidTables(t)
    ensures gaps == EnforcementGaps(t, Index(ApiRoutes(nodes, ""), |ApiRoutes(nodes, "")|), |t.order|)
  {
    var found := ApiRoutes(nodes, "");
    var index: map<Key, Route> := map[];
    for n := 0 to |found|
      invariant index == Index(found, n)
    {
      var path, route := NormalizePath(found[n].0), found[n].1;
      ghost var before := index;
      for k := 0 to |route.methods|
        invariant index == IndexMethods(before, path, route, k)
      {
        if IsHttp(route.methods[k]) {
          index := index[(route.methods[k], path) := route];
        }
      }
    }
    gaps := [];
    for n := 0 to |t.order|
      invariant gaps == EnforcementGaps(t, index, n)
    {
      var key := t.order[n];
      if key in t.exceptions {
        continue;
      }
      if key !in index {
        gaps := gaps + [Message(key, NO_ROUTE)];
        continue;
      }
      var calls := DependantCalls(index[key].dependant);
      var enforced := set c | c in calls && c.action.Some? :: c.action.value;
      assert t.policy[key] in enforced <==> Call(Some(t.policy[key])) in calls by {
        if t.policy[key] in enforced {
          var c :| c in calls && c.action.Some? && c.action.value == t.policy[key];
          assert c == Call(Some(t.policy[key]));
        }
        if Call(Some(t.policy[key])) in calls {
          assert Call(Some(t.policy[key])).action.value in enforced;
        }
      }
      if t.policy[key] !in enforced {
        gaps := gaps + [Message(key, NotWired(t.policy[key]))];
      }
    }
  }

  // ---------------------------------------------------------------- audit_unmodeled_enforcement_gaps

  /** The key read back from a message: the part before its first colon, cut at its first space. None
      where unpacking the two halves would raise. */
  function ParsedKey(gap: string): Option<Key> {
    var head := gap[..Find(gap, ':')];
    var space := Find(head, ' ');
    if space == |head| then None else Some((head[..space], head[space + 1..]))
  }

  function Unmodeled(t: Tables, gaps: seq<string>, n: nat): Option<seq<string>>
    requires n <= |gaps|
  {
    if n == 0 then Some([])
    else
      var before, key := Unmodeled(t, gaps, n - 1), ParsedKey(gaps[n - 1]);
      if before.None? || key.None? then None
      else if key.value in t.roleOnly then before
      else Some(before.value + [gaps[n - 1]])
  }

  method AuditUnmodeledGaps(t: Tables, nodes: seq<Node>) returns (unmodeled: Option<seq<string>>)
    requires ValidTables(t)
    ensures unmodeled == UnmodeledGaps(t, nodes)
  {
    hide ParsedKey, Index, ApiRoutes, EnforcementGaps;
    var gaps := AuditRouteEnforcement(t, nodes);
    var out: seq<string> := [];
    for n := 0 to |gaps|
      invariant Unmodeled(t, gaps, n) == Some(out)
    {
      var key := ParsedKey(gaps[n]);
      if key.None? {
        UnmodeledStaysNone(t, gaps, n + 1);
        return None;
      }
      if key.value !in t.roleOnly {
        out := out + [gaps[n]];
      }
    }
    unmodeled := Some(out);
  }

  function UnmodeledGaps(t: Tables, nodes: seq<Node>): Option<seq<string>>
    requires forall k :: k in t.order ==> k in t.policy
  {
    var found := ApiRoutes(nodes, "");
    var gaps := EnforcementGaps(t, Index(found, |found|), |t.order|);
    Unmodeled(t, gaps, |gaps|)
  }

  lemma {:induction false} UnmodeledStaysNone(t: Tables, gaps: seq<string>, n: nat)
    requires n <= |gaps| && Unmodeled(t, gaps, n).None?
    ensures Unmodeled(t, gaps, |gaps|).None?
    decreases |gaps| - n
  {
    if n < |gaps| { UnmodeledStaysNone(t, gaps, n + 1); }
  }

  /** What the filter keeps: every line whose key is not catalogued, as it was; it raises
      exactly when it meets a line from which no key can be read. */
  lemma {:induction false} UnmodeledKeeps(t: Tables, gaps: seq<string>, n: nat)
    requires n <= |gaps|
    ensures Unmodeled(t, gaps, n).None? <==> exists i :: 0 <= i < n && ParsedKey(gaps[i]).None?
    ensures Unmodeled(t, gaps, n).Some? ==>
              forall g :: g in Unmodeled(t, gaps, n).value
                          <==> g in gaps[..n] && ParsedKey(g).Some? && ParsedKey(g).value !in t.roleOnly
    ensures Unmodeled(t, gaps, n).Some? && (forall i :: 0 <= i < n ==> !Excused(t, gaps[i])) ==>
              Unmodeled(t, gaps, n).value == gaps[..n]
    decreases n
  {
    hide ParsedKey;
    if n > 0 {
      UnmodeledKeeps(t, gaps, n - 1);
      assert gaps[..n] == gaps[..n - 1] + [gaps[n - 1]];
    }
  }

  predicate Excused(t: Tables, gap: string) { ParsedKey(gap).Some? && ParsedKey(gap).value in t.roleOnly }

  // ---------------------------------------------------------------- reading a message back

  predicate Readable(key: Key) {
    (forall i :: 0 <= i < |key.0| ==> key.0[i] != ':' && key.0[i] != ' ')
    && (forall i :: 0 <= i < |key.1| ==> key.1[i] != ':')
  }

  /** The key is recovered from a message exactly when neither half holds a colon and the method holds
      no space. */
  lemma ParseExactly(key: Key, reason: string)
    ensures ParsedKey(Message(key, reason)) == Some(key) <==> Readable(key)
  {
    hide ParsedKey, Message, Readable;
    if Readable(key) {
      ReadableParses(key, reason);
    }
    if ParsedKey(Message(key, reason)) == Some(key) {
      ParsedIsReadable(key, reason);
    }
  }

  lemma ReadableParses(key: Key, reason: string)
    requires Readable(key)
    ensures ParsedKey(Message(key, reason)) == Some(key)
  {
    var head, gap := key.0 + " " + key.1, Message(key, reason);
    assert gap[..|head|] == head && gap[|head|] == ':';
    assert forall j :: 0 <= j < |head| ==> head[j] != ':';
    FindUnique(gap, ':', |head|);
    FindUnique(head, ' ', |key.0|);
    assert head[..|key.0|] == key.0 && head[|key.0| + 1..] == key.1;
  }

  lemma ParsedIsReadable(key: Key, reason: string)
    requires ParsedKey(Message(key, reason)) == Some(key)
    ensures Readable(key)
  {
    var gap := Message(key, reason);
    var read := gap[..Find(gap, ':')];
    var space := Find(read, ' ');
    assert key.0 == read[..space] && key.1 == read[space + 1..];
    assert forall j :: 0 <= j < |key.0| ==> key.0[j] == read[j] == gap[j];
    assert forall j :: 0 <= j < |key.1| ==> key.1[j] == read[space + 1 + j] == gap[space + 1 + j];
  }

  /** A path with a colon is read back cut at the colon, so its gap is excused by whatever the
      role-only catalogue says of the shorter path. */
  lemma ColonCutsPath(verb: string, path: string, suffix: string, reason: string)
    requires Readable((verb, path))
    ensures ParsedKey(Message((verb, path + ":" + suffix), reason)) == Some((verb, path))
  {
    ParseExactly((verb, path), suffix + ":" + reason);
    assert Message((verb, path + ":" + suffix), reason) == Message((verb, path), suffix + ":" + reason);
  }

  // ---------------------------------------------------------------- what empty audits mean

  lemma {:induction false} PathClean(t: Tables, path: string, methods: seq<string>, n: nat)
    requires n <= |methods|
    ensures PathGaps(t, path, methods, n) == []
      <==> forall k :: 0 <= k < n && methods[k] in UPPER ==> Classified(t, (UPPER[methods[k]], path))
    decreases n
  {
    if n > 0 { PathClean(t, path, methods, n - 1); }
  }

  lemma {:induction false} RouteClean(t: Tables, path: string, methods: seq<string>, n: nat)
    requires n <= |methods|
    ensures RouteGaps(t, path, methods, n) == []
      <==> forall k :: 0 <= k < n && IsHttp(methods[k]) ==> Classified(t, (methods[k], path))
    decreases n
  {
    if n > 0 { RouteClean(t, path, methods, n - 1); }
  }

  predicate PathOk(t: Tables, entry: (string, seq<string>)) {
    IsDocs(entry.0)
    || forall k :: 0 <= k < |entry.1| && entry.1[k] in UPPER ==> Classified(t, (UPPER[entry.1[k]], entry.0))
  }

  predicate HiddenOk(t: Tables, f: Found) {
    forall k :: 0 <= k < |f.1.methods| && IsHttp(f.1.methods[k]) ==> Classified(t, (f.1.methods[k], NormalizePath(f.0)))
  }

  lemma {:induction false} SchemaClean(t: Tables, schema: Schema, n: nat)
    requires n <= |schema|
    ensures SchemaGaps(t, schema, n) == [] <==> forall k :: 0 <= k < n ==> PathOk(t, schema[k])
    decreases n
  {
    if n > 0 {
      SchemaClean(t, schema, n - 1);
      PathClean(t, schema[n - 1].0, schema[n - 1].1, |schema[n - 1].1|);
    }
  }

  lemma {:induction false} HiddenClean(t: Tables, hidden: seq<Found>, n: nat)
    requires n <= |hidden|
    ensures HiddenGaps(t, hidden, n) == [] <==> forall k :: 0 <= k < n ==> HiddenOk(t, hidden[k])
    decreases n
  {
    if n > 0 {
      HiddenClean(t, hidden, n - 1);
      RouteClean(t, NormalizePath(hidden[n - 1].0), hidden[n - 1].1.methods, |hidden[n - 1].1.methods|);
    }
  }

  lemma {:induction false} HiddenAre(found: seq<Found>, f: Found)
    ensures f in HiddenRoutes(found) <==> f in found && !f.1.inSchema
    decreases |found|
  {
    if found != [] { HiddenAre(found[1..], f); }
  }

  /** The key that the filter reads in a gap message of this entry is in the role-only catalogue. */
  predicate ReadBack(t: Tables, key: Key) {
    var read := ParsedKey(Message(key, ""));
    read.Some? && read.value in t.roleOnly
  }

  /** A policy entry that is excepted, read back as a catalogued one, or wired in its mounted route. */
  ghost predicate Enforced(t: Tables, index: map<Key, Route>, key: Key)
    requires key in t.policy
  {
    key in t.exceptions || ReadBack(t, key) || (key in index && Wired(index[key].dependant, t.policy[key]))
  }

  lemma UnmodeledSnoc(t: Tables, a: seq<string>, gap: string)
    ensures Unmodeled(t, a + [gap], |a| + 1)
         == if Unmodeled(t, a, |a|).None? || ParsedKey(gap).None? then None
            else if ParsedKey(gap).value in t.roleOnly then Unmodeled(t, a, |a|)
            else Some(Unmodeled(t, a, |a|).value + [gap])
  {
    hide ParsedKey;
    UnmodeledPrefix(t, a, a + [gap], |a|);
  }

  lemma {:induction false} UnmodeledPrefix(t: Tables, a: seq<string>, b: seq<string>, n: nat)
    requires n <= |a| <= |b| && forall i :: 0 <= i < n ==> a[i] == b[i]
    ensures Unmodeled(t, a, n) == Unmodeled(t, b, n)
    decreases n
  {
    if n > 0 { UnmodeledPrefix(t, a, b, n - 1); }
  }

  /** What is read back depends on the key alone, not on the complaint about it. */
  lemma ReasonIrrelevant(key: Key, reason: string)
    ensures ParsedKey(Message(key, reason)) == ParsedKey(Message(key, ""))
  {
    var long, short := Message(key, reason), Message(key, "");
    assert long == short + reason;
    var i := Find(short, ':');
    assert short[|short| - 1] == ':';
    assert i < |short|;
    FindUnique(long, ':', i);
    assert long[..i] == short[..i];
  }

  lemma MessageParses(t: Tables, index: map<Key, Route>, key: Key)
    requires key in t.policy
    ensures |Enforcement(t, index, key)| <= 1
    ensures forall g :: g in Enforcement(t, index, key) ==> ParsedKey(g) == ParsedKey(Message(key, ""))
    ensures Enforcement(t, index, key) == []
      <==> key in t.exceptions || (key in index && Wired(index[key].dependant, t.policy[key]))
  {
    hide ParsedKey, Message, NotWired;
    ReasonIrrelevant(key, NO_ROUTE);
    ReasonIrrelevant(key, NotWired(t.policy[key]));
    if key in index {
      CallsFindWired(index[key].dependant, t.policy[key]);
    }
  }

  /** The unmodeled audit is empty exactly when every policy entry is excepted, read back as a
      catalogued one, or wired. */
  lemma {:induction false} UnmodeledClean(t: Tables, index: map<Key, Route>, n: nat)
    requires ValidTables(t) && n <= |t.order|
    ensures Unmodeled(t, EnforcementGaps(t, index, n), |EnforcementGaps(t, index, n)|) == Some([])
      <==> forall k :: 0 <= k < n ==> Enforced(t, index, t.order[k])
    decreases n
  {
    hide Enforcement, ParsedKey, Message, Unmodeled;
    if n == 0 {
      NothingUnmodeled(t);
    } else {
      var key := t.order[n - 1];
      assert key in t.order && key in t.policy;
      var a, b := EnforcementGaps(t, index, n - 1), Enforcement(t, index, key);
      UnmodeledClean(t, index, n - 1);
      MessageParses(t, index, key);
      if b == [] {
        assert a + b == a;
      } else {
        assert b == [b[0]] && b[0] in b;
        UnmodeledSnoc(t, a, b[0]);
      }
    }
  }

  lemma NothingUnmodeled(t: Tables)
    ensures Unmodeled(t, [], 0) == Some([])
  {
  }

  // ---------------------------------------------------------------- every mounted route

  predicate HasKey(f: Found, key: Key) {
    NormalizePath(f.0) == key.1 && key.0 in f.1.methods && IsHttp(key.0)
  }

  lemma {:induction false} IndexMethodsIs(index: map<Key, Route>, path: string, route: Route, n: nat, key: Key)
    requires n <= |route.methods|
    ensures var added := path == key.1 && key.0 in route.methods[..n] && IsHttp(key.0);
      var after := IndexMethods(index, path, route, n);
      (key in after <==> added || key in index)
      && (added ==> after[key] == route) && (!added && key in index ==> after[key] == index[key])
    decreases n
  {
    if n > 0 {
      IndexMethodsIs(index, path, route, n - 1, key);
      assert route.methods[..n] == route.methods[..n - 1] + [route.methods[n - 1]];
    } else {
      assert route.methods[..0] == [];
    }
  }

  /** The index holds, for each key, the last mounted route that answers to it: of two routes with one
      key, only the later is audited. */
  lemma {:induction false} IndexIsLast(found: seq<Found>, n: nat, i: nat, key: Key)
    requires i < n <= |found| && HasKey(found[i], key)
    requires forall j :: i < j < n ==> !HasKey(found[j], key)
    ensures key in Index(found, n) && Index(found, n)[key] == found[i].1
    decreases n
  {
    var (path, route) := found[n - 1];
    assert route.methods[..|route.methods|] == route.methods;
    IndexMethodsIs(Index(found, n - 1), NormalizePath(path), route, |route.methods|, key);
    if i < n - 1 {
      IndexIsLast(found, n - 1, i, key);
      assert !HasKey(found[n - 1], key);
    }
  }

  /** The schema lists every visible route under its normalised path and lower-case methods. */
  ghost predicate ListsVisible(schema: Schema, found: seq<Found>) {
    forall f, m :: f in found && f.1.inSchema && m in f.1.methods && IsHttp(m) ==> Listed(schema, NormalizePath(f.0), m)
  }

  ghost predicate Listed(schema: Schema, path: string, m: string) {
    exists k, l :: 0 <= k < |schema| && 0 <= l < |schema[k].1| && ListedAt(schema, k, l, path, m)
  }

  predicate ListedAt(schema: Schema, k: nat, l: nat, path: string, m: string)
    requires k < |schema| && l < |schema[k].1|
  {
    schema[k].0 == path && schema[k].1[l] in UPPER && UPPER[schema[k].1[l]] == m
  }

  ghost predicate Guarded(t: Tables, f: Found, key: Key) {
    || key in t.public
    || (f.1.inSchema && IsDocs(key.1))
    || key in t.exceptions
    || key in t.roleOnly
    || (key in t.policy && t.policy[key] in t.permissions && Wired(f.1.dependant, t.policy[key]))
  }

  lemma RouteClassified(t: Tables, schema: Schema, nodes: seq<Node>, f: Found, key: Key)
    requires PolicyGaps(t, schema, nodes) == [] && ListsVisible(schema, ApiRoutes(nodes, ""))
    requires f in ApiRoutes(nodes, "") && HasKey(f, key)
    ensures Classified(t, key) || (f.1.inSchema && IsDocs(key.1))
  {
    hide Classified, IsDocs, ApiRoutes;
    var hidden := HiddenRoutes(ApiRoutes(nodes, ""));
    SchemaClean(t, schema, |schema|);
    HiddenClean(t, hidden, |hidden|);
    if f.1.inSchema {
      assert Listed(schema, NormalizePath(f.0), key.0);
      var k, l :| 0 <= k < |schema| && 0 <= l < |schema[k].1| && ListedAt(schema, k, l, key.1, key.0);
      assert PathOk(t, schema[k]);
    } else {
      HiddenAre(ApiRoutes(nodes, ""), f);
      var k :| 0 <= k < |hidden| && hidden[k] == f;
      assert HiddenOk(t, f);
    }
  }

  /** A policy entry with a known action that nothing excuses. */
  predicate Exposed(t: Tables, key: Key) {
    && key in t.policy && t.policy[key] in t.permissions && Mountable(key)
    && key !in t.public && key !in t.exceptions && key !in t.roleOnly
  }

  /** A method the audits look at and a path in the form they compare. */
  predicate Mountable(key: Key) { IsHttp(key.0) && NormalizePath(key.1) == key.1 }

  /** An exposed entry whose gap message is read back as somebody else's catalogued key. */
  predicate Mistaken(t: Tables, key: Key) { Exposed(t, key) && ReadBack(t, key) }

  /** No later route answers to the same key. */
  predicate IsLast(found: seq<Found>, i: nat, key: Key)
    requires i < |found|
  {
    forall j :: i < j < |found| ==> !HasKey(found[j], key)
  }

  /** Both audits come back empty on a router whose schema lists its visible routes. */
  ghost predicate Audited(t: Tables, schema: Schema, nodes: seq<Node>)
    requires ValidTables(t)
  {
    && ListsVisible(schema, ApiRoutes(nodes, ""))
    && PolicyGaps(t, schema, nodes) == [] && UnmodeledGaps(t, nodes) == Some([])
  }

  /** The policy audit is empty exactly when every listed and every hidden route is classified. */
  lemma PolicyAuditExactly(t: Tables, schema: Schema, nodes: seq<Node>)
    ensures PolicyGaps(t, schema, nodes) == []
      <==> (forall k :: 0 <= k < |schema| ==> PathOk(t, schema[k]))
           && (forall f :: f in ApiRoutes(nodes, "") && !f.1.inSchema ==> HiddenOk(t, f))
  {
    hide PathOk, HiddenOk, ApiRoutes, SchemaGaps, HiddenGaps, HiddenRoutes;
    var found := ApiRoutes(nodes, "");
    var hidden := HiddenRoutes(found);
    SchemaClean(t, schema, |schema|);
    HiddenClean(t, hidden, |hidden|);
    forall f ensures f in hidden <==> f in found && !f.1.inSchema {
      HiddenAre(found, f);
    }
    assert forall k :: 0 <= k < |hidden| ==> hidden[k] in hidden;
  }

  // ---------------------------------------------------------------- what the gaps say

  /** The line begins with the method, a space and the path. */
  predicate Names(gap: string, key: Key) { key.0 + " " + key.1 <= gap }

  /** Every line names one of the keys, and every one of the keys is named in a line. */
  ghost predicate Reports(gaps: seq<string>, keys: iset<Key>) {
    && (forall g :: g in gaps ==> exists key :: key in keys && Names(g, key))
    && (forall key :: key in keys ==> exists g :: g in gaps && Names(g, key))
  }

  lemma ReportsBoth(a: seq<string>, x: iset<Key>, b: seq<string>, y: iset<Key>)
    requires Reports(a, x) && Reports(b, y)
    ensures Reports(a + b, x + y)
  {
    hide Names;
  }

  ghost function Unclassified(t: Tables, key: Key): iset<Key> { if Classified(t, key) then iset{} else iset{key} }

  lemma ComplaintReports(t: Tables, key: Key, hidden: bool)
    ensures Reports(Complaint(t, key, hidden), Unclassified(t, key))
  {
    hide Classified;
    var gaps := Complaint(t, key, hidden);
    if !Classified(t, key) {
      assert gaps == [gaps[0]] && Names(gaps[0], key);
    }
  }

  predicate Uppers(lower: string, m: string) { lower in UPPER && UPPER[lower] == m }

  predicate AnyUppers(methods: seq<string>, n: nat, m: string)
    requires n <= |methods|
  {
    exists k :: 0 <= k < n && Uppers(methods[k], m)
  }

  ghost function PathKeys(t: Tables, path: string, methods: seq<string>, n: nat): iset<Key>
    requires n <= |methods|
  {
    iset key: Key | key.1 == path && !Classified(t, key) && AnyUppers(methods, n, key.0)
  }

  lemma PathKeysStep(t: Tables, path: string, methods: seq<string>, n: nat)
    requires 0 < n <= |methods|
    ensures PathKeys(t, path, methods, n) == PathKeys(t, path, methods, n - 1)
         + if methods[n - 1] in UPPER then Unclassified(t, (UPPER[methods[n - 1]], path)) else iset{}
  {
    hide Classified;
  }

  lemma {:induction false} PathReports(t: Tables, path: string, methods: seq<string>, n: nat)
    requires n <= |methods|
    ensures Reports(PathGaps(t, path, methods, n), PathKeys(t, path, methods, n))
    decreases n
  {
    if n > 0 {
      hide Classified, Complaint, Reports, PathKeys, Unclassified;
      PathReports(t, path, methods, n - 1);
      PathKeysStep(t, path, methods, n);
      if methods[n - 1] in UPPER {
        var key := (UPPER[methods[n - 1]], path);
        ComplaintReports(t, key, false);
        ReportsBoth(PathGaps(t, path, methods, n - 1), PathKeys(t, path, methods, n - 1),
                    Complaint(t, key, false), Unclassified(t, key));
      } else {
        assert PathKeys(t, path, methods, n) == PathKeys(t, path, methods, n - 1);
        assert PathGaps(t, path, methods, n) == PathGaps(t, path, methods, n - 1);
      }
    }
  }

  ghost function RouteKeys(t: Tables, path: string, methods: seq<string>, n: nat): iset<Key>
    requires n <= |methods|
  {
    iset key: Key | key.1 == path && !Classified(t, key) && IsHttp(key.0) && key.0 in methods[..n]
  }

  lemma RouteKeysStep(t: Tables, path: string, methods: seq<string>, n: nat)
    requires 0 < n <= |methods|
    ensures RouteKeys(t, path, methods, n) == RouteKeys(t, path, methods, n - 1)
         + if IsHttp(methods[n - 1]) then Unclassified(t, (methods[n - 1], path)) else iset{}
  {
    hide Classified, IsHttp;
    assert methods[..n] == methods[..n - 1] + [methods[n - 1]];
  }

  lemma {:induction false} RouteReports(t: Tables, path: string, methods: seq<string>, n: nat)
    requires n <= |methods|
    ensures Reports(RouteGaps(t, path, methods, n), RouteKeys(t, path, methods, n))
    decreases n
  {
    if n > 0 {
      hide Classified, Complaint, Reports, IsHttp, RouteKeys, Unclassified;
      RouteReports(t, path, methods, n - 1);
      RouteKeysStep(t, path, methods, n);
      if IsHttp(methods[n - 1]) {
        var key := (methods[n - 1], path);
        ComplaintReports(t, key, true);
        ReportsBoth(RouteGaps(t, path, methods, n - 1), RouteKeys(t, path, methods, n - 1),
                    Complaint(t, key, true), Unclassified(t, key));
      } else {
        assert RouteKeys(t, path, methods, n) == RouteKeys(t, path, methods, n - 1);
        assert RouteGaps(t, path, methods, n) == RouteGaps(t, path, methods, n - 1);
      }
    }
  }

  ghost function SchemaKeys(t: Tables, schema: Schema, n: nat): iset<Key>
    requires n <= |schema|
  {
    iset key: Key | !IsDocs(key.1) && !Classified(t, key) && Listed(schema[..n], key.1, key.0)
  }

  lemma ListedSnoc(schema: Schema, last: string, methods: seq<string>, path: string, m: string)
    ensures Listed(schema + [(last, methods)], path, m)
      <==> Listed(schema, path, m) || (last == path && AnyUppers(methods, |methods|, m))
  {
    var all := schema + [(last, methods)];
    if Listed(schema, path, m) {
      var k, l :| 0 <= k < |schema| && 0 <= l < |schema[k].1| && ListedAt(schema, k, l, path, m);
      assert all[k] == schema[k] && ListedAt(all, k, l, path, m);
    }
    if last == path && AnyUppers(methods, |methods|, m) {
      var l :| 0 <= l < |methods| && Uppers(methods[l], m);
      assert ListedAt(all, |schema|, l, path, m);
    }
    if Listed(all, path, m) {
      var k, l :| 0 <= k < |all| && 0 <= l < |all[k].1| && ListedAt(all, k, l, path, m);
      if k < |schema| {
        assert ListedAt(schema, k, l, path, m);
      }
    }
  }

  lemma SchemaKeysStep(t: Tables, schema: Schema, n: nat)
    requires 0 < n <= |schema|
    ensures SchemaKeys(t, schema, n) == SchemaKeys(t, schema, n - 1)
         + if IsDocs(schema[n - 1].0) then iset{} else PathKeys(t, schema[n - 1].0, schema[n - 1].1, |schema[n - 1].1|)
  {
    hide Classified, IsDocs, Listed, Uppers;
    assert schema[..n] == schema[..n - 1] + [schema[n - 1]];
    forall key: Key {
      ListedSnoc(schema[..n - 1], schema[n - 1].0, schema[n - 1].1, key.1, key.0);
    }
  }

  lemma {:induction false} SchemaReports(t: Tables, schema: Schema, n: nat)
    requires n <= |schema|
    ensures Reports(SchemaGaps(t, schema, n), SchemaKeys(t, schema, n))
    decreases n
  {
    if n > 0 {
      hide Reports, IsDocs, PathGaps, SchemaKeys, PathKeys;
      var (path, methods) := schema[n - 1];
      SchemaReports(t, schema, n - 1);
      SchemaKeysStep(t, schema, n);
      if IsDocs(path) {
        assert SchemaKeys(t, schema, n) == SchemaKeys(t, schema, n - 1);
        assert SchemaGaps(t, schema, n) == SchemaGaps(t, schema, n - 1);
      } else {
        PathReports(t, path, methods, |methods|);
        ReportsBoth(SchemaGaps(t, schema, n - 1), SchemaKeys(t, schema, n - 1),
                    PathGaps(t, path, methods, |methods|), PathKeys(t, path, methods, |methods|));
      }
    } else {
      assert schema[..0] == [];
    }
  }

  ghost function HiddenKeys(t: Tables, hidden: seq<Found>, n: nat): iset<Key>
    requires n <= |hidden|
  {
    iset key: Key | !Classified(t, key) && exists f :: f in hidden[..n] && HasKey(f, key)
  }

  lemma HiddenKeysStep(t: Tables, hidden: seq<Found>, n: nat)
    requires 0 < n <= |hidden|
    ensures var route := hidden[n - 1].1;
      HiddenKeys(t, hidden, n) == HiddenKeys(t, hidden, n - 1)
                                  + RouteKeys(t, NormalizePath(hidden[n - 1].0), route.methods, |route.methods|)
  {
    hide Classified, IsHttp, NormalizePath;
    var f := hidden[n - 1];
    assert f.1.methods[..|f.1.methods|] == f.1.methods;
    assert hidden[..n] == hidden[..n - 1] + [f];
    forall key: Key ensures key in HiddenKeys(t, hidden, n)
      <==> key in HiddenKeys(t, hidden, n - 1) || (!Classified(t, key) && HasKey(f, key)) {
      if !Classified(t, key) && HasKey(f, key) {
        assert f in hidden[..n];
      }
      if key in HiddenKeys(t, hidden, n - 1) {
        var g :| g in hidden[..n - 1] && HasKey(g, key);
        assert g in hidden[..n];
      }
    }
  }

  lemma {:induction false} HiddenReports(t: Tables, hidden: seq<Found>, n: nat)
    requires n <= |hidden|
    ensures Reports(HiddenGaps(t, hidden, n), HiddenKeys(t, hidden, n))
    decreases n
  {
    if n > 0 {
      hide Reports, NormalizePath, RouteGaps, HiddenKeys, RouteKeys;
      var (full, route) := hidden[n - 1];
      HiddenReports(t, hidden, n - 1);
      HiddenKeysStep(t, hidden, n);
      RouteReports(t, NormalizePath(full), route.methods, |route.methods|);
      ReportsBoth(HiddenGaps(t, hidden, n - 1), HiddenKeys(t, hidden, n - 1),
                  RouteGaps(t, NormalizePath(full), route.methods, |route.methods|),
                  RouteKeys(t, NormalizePath(full), route.methods, |route.methods|));
    }
  }

  /** A key the policy audit looks at: listed in the schema and no documentation page, or answered by a
      hidden route. */
  ghost predicate LookedAt(schema: Schema, found: seq<Found>, key: Key) {
    || (Listed(schema, key.1, key.0) && key.1 != "/api/openapi.json" && !("/api/docs" <= key.1))
    || exists f :: f in found && !f.1.inSchema && HasKey(f, key)
  }

  /** Each line of the policy audit begins with the method and path of an unclassified route it looked at,
      and each such route has its line. */
  lemma PolicyGapsName(t: Tables, schema: Schema, nodes: seq<Node>)
    ensures Reports(PolicyGaps(t, schema, nodes),
                    iset key: Key | LookedAt(schema, ApiRoutes(nodes, ""), key) && !Classified(t, key))
  {
    hide Classified, Reports, HasKey, Listed, ApiRoutes, SchemaGaps, HiddenGaps, HiddenRoutes;
    var found := ApiRoutes(nodes, "");
    var hidden := HiddenRoutes(found);
    SchemaReports(t, schema, |schema|);
    HiddenReports(t, hidden, |hidden|);
    forall f ensures f in hidden <==> f in found && !f.1.inSchema {
      HiddenAre(found, f);
    }
    assert schema[..|schema|] == schema && hidden[..|hidden|] == hidden;
    ReportsBoth(SchemaGaps(t, schema, |schema|), SchemaKeys(t, schema, |schema|),
                HiddenGaps(t, hidden, |hidden|), HiddenKeys(t, hidden, |hidden|));
    assert SchemaKeys(t, schema, |schema|) + HiddenKeys(t, hidden, |hidden|)
        == iset key: Key | LookedAt(schema, found, key) && !Classified(t, key);
  }

  /** Entries that are not excepted and not wired in the route mounted last under their key. */
  ghost function UnwiredKeys(t: Tables, index: map<Key, Route>, n: nat): iset<Key>
    requires n <= |t.order| && forall k :: k in t.order ==> k in t.policy
  {
    iset key: Key | key in t.order[..n] && key !in t.exceptions
                    && !(key in index && Wired(index[key].dependant, t.policy[key]))
  }

  ghost function Unwired(t: Tables, index: map<Key, Route>, key: Key): iset<Key>
    requires key in t.policy
  {
    if key in t.exceptions || (key in index && Wired(index[key].dependant, t.policy[key])) then iset{} else iset{key}
  }

  lemma OneReports(t: Tables, index: map<Key, Route>, key: Key)
    requires key in t.policy
    ensures Reports(Enforcement(t, index, key), Unwired(t, index, key))
  {
    hide Wired, ParsedKey, NotWired;
    MessageParses(t, index, key);
    var gaps := Enforcement(t, index, key);
    if gaps != [] {
      assert gaps == [gaps[0]] && Names(gaps[0], key);
    }
  }

  lemma UnwiredStep(t: Tables, index: map<Key, Route>, n: nat)
    requires 0 < n <= |t.order| && forall k :: k in t.order ==> k in t.policy
    ensures t.order[n - 1] in t.policy
    ensures UnwiredKeys(t, index, n) == UnwiredKeys(t, index, n - 1) + Unwired(t, index, t.order[n - 1])
    ensures EnforcementGaps(t, index, n) == EnforcementGaps(t, index, n - 1) + Enforcement(t, index, t.order[n - 1])
  {
    hide Wired, Enforcement;
    assert t.order[n - 1] in t.order;
    assert t.order[..n] == t.order[..n - 1] + [t.order[n - 1]];
  }

  /** The enforcement audit has a line that begins with the key for each such entry, and no other line. */
  lemma {:induction false} EnforcementNames(t: Tables, index: map<Key, Route>, n: nat)
    requires n <= |t.order| && forall k :: k in t.order ==> k in t.policy
    ensures Reports(EnforcementGaps(t, index, n), UnwiredKeys(t, index, n))
    decreases n
  {
    if n > 0 {
      hide Reports, EnforcementGaps, UnwiredKeys;
      EnforcementNames(t, index, n - 1);
      NamesStep(t, index, n);
    }
  }

  lemma NamesStep(t: Tables, index: map<Key, Route>, n: nat)
    requires 0 < n <= |t.order| && forall k :: k in t.order ==> k in t.policy
    requires Reports(EnforcementGaps(t, index, n - 1), UnwiredKeys(t, index, n - 1))
    ensures Reports(EnforcementGaps(t, index, n), UnwiredKeys(t, index, n))
  {
    hide Reports, Enforcement, EnforcementGaps, UnwiredKeys, Unwired;
    UnwiredStep(t, index, n);
    OneReports(t, index, t.order[n - 1]);
    ReportsBoth(EnforcementGaps(t, index, n - 1), UnwiredKeys(t, index, n - 1),
                Enforcement(t, index, t.order[n - 1]), Unwired(t, index, t.order[n - 1]));
  }

  /** The unmodeled audit is empty exactly when every policy entry is excepted, read back as a catalogued
      key, or wired in its mounted route; entries without a mounted route fail it. */
  lemma UnmodeledAuditExactly(t: Tables, nodes: seq<Node>)
    requires ValidTables(t)
    ensures UnmodeledGaps(t, nodes) == Some([])
      <==> forall k :: k in t.policy ==> Enforced(t, Index(ApiRoutes(nodes, ""), |ApiRoutes(nodes, "")|), k)
  {
    hide ApiRoutes, Index, Enforced, EnforcementGaps, Unmodeled;
    var found := ApiRoutes(nodes, "");
    UnmodeledClean(t, Index(found, |found|), |t.order|);
    assert forall j :: 0 <= j < |t.order| ==> t.order[j] in t.order;
  }

  /** The theorem the two audits exist for. When both come back empty, every HTTP method of every
      mounted route is public, a documentation page, a named exception, in the role-only catalogue, or
      has the known action it declares wired somewhere in its dependency tree. The two things that can
      go wrong are excluded for this route alone: its gap message read back as another key, and a later
      route under its key. */
  lemma EveryRouteGuarded(t: Tables, schema: Schema, nodes: seq<Node>, i: nat, key: Key)
    requires ValidTables(t) && i < |ApiRoutes(nodes, "")|
    ensures var found := ApiRoutes(nodes, "");
      (Audited(t, schema, nodes) && HasKey(found[i], key) && IsLast(found, i, key) && !Mistaken(t, key)) ==>
        Guarded(t, found[i], key)
  {
    hide ApiRoutes, PolicyGaps, IsDocs, ReadBack, UnmodeledGaps, NormalizePath;
    var found := ApiRoutes(nodes, "");
    if Audited(t, schema, nodes) && HasKey(found[i], key) && IsLast(found, i, key) && !Mistaken(t, key) {
      UnguardedIsExposed(t, schema, nodes, i, key);
      UnmodeledAuditExactly(t, nodes);
      if Exposed(t, key) {
        assert Enforced(t, Index(found, |found|), key);
        IndexIsLast(found, |found|, i, key);
      }
    }
  }

  /** Of an audited router only the routes of exposed entries can be unguarded. */
  lemma UnguardedIsExposed(t: Tables, schema: Schema, nodes: seq<Node>, i: nat, key: Key)
    requires ValidTables(t) && Audited(t, schema, nodes)
    requires i < |ApiRoutes(nodes, "")| && HasKey(ApiRoutes(nodes, "")[i], key)
    ensures Guarded(t, ApiRoutes(nodes, "")[i], key) || Exposed(t, key)
  {
    hide ApiRoutes, PolicyGaps, IsDocs, UnmodeledGaps, NormalizePath;
    var f := ApiRoutes(nodes, "")[i];
    RouteClassified(t, schema, nodes, f, key);
    NormalizeIdempotent(f.0);
  }

  /** With readable keys nothing is mistaken: the filter reads each entry as itself. */
  lemma ReadableNotMistaken(t: Tables, key: Key)
    requires Readable(key)
    ensures !Mistaken(t, key) && (ReadBack(t, key) <==> key in t.roleOnly)
  {
    ParseExactly(key, "");
  }
}
