/** The tree walks of backend/src/ragz/api/policy.py: path normalisation, the router walk and the
    dependency walk. */
module RouteTree {
  import opened Prelude

  // ---------------------------------------------------------------- path converters

  predicate IsBrace(c: char) { c == '{' || c == '}' }

  /** Position of the first brace, or the length. */
  function NextBrace(s: string): (i: nat)
    ensures i <= |s| && forall j :: 0 <= j < i ==> !IsBrace(s[j])
    ensures i < |s| ==> IsBrace(s[i])
  {
    if s == "" || IsBrace(s[0]) then 0 else 1 + NextBrace(s[1..])
  }

  /** Position of the first occurrence of c, or the length. */
  function Find(s: string, c: char): (i: nat)
    ensures i <= |s| && forall j :: 0 <= j < i ==> s[j] != c
    ensures i < |s| ==> s[i] == c
  {
    if s == "" || s[0] == c then 0 else 1 + Find(s[1..], c)
  }

  lemma FindUnique(s: string, c: char, i: nat)
    requires i <= |s| && forall j :: 0 <= j < i ==> s[j] != c
    requires i < |s| ==> s[i] == c
    ensures Find(s, c) == i
  {
  }

  lemma NextBraceUnique(s: string, i: nat)
    requires i <= |s| && forall j :: 0 <= j < i ==> !IsBrace(s[j])
    requires i < |s| ==> IsBrace(s[i])
    ensures NextBrace(s) == i
  {
  }

  /** The text between two braces is a name, a colon and a converter. */
  predicate HasConverter(content: string) {
    var colon := Find(content, ':');
    1 <= colon < |content| - 1
  }

  /** What follows an opening brace is a name with a converter and the closing brace. */
  predicate Converts(rest: string) {
    var end := NextBrace(rest);
    end < |rest| && rest[end] == '}' && HasConverter(rest[..end])
  }

  function NameOf(rest: string): (name: string)
    requires Converts(rest)
    ensures forall j :: 0 <= j < |name| ==> !IsBrace(name[j]) && name[j] != ':'
  {
    rest[..Find(rest[..NextBrace(rest)], ':')]
  }

  /** Every "{name:converter}" becomes "{name}". */
  function NormalizePath(path: string): string
    decreases |path|
  {
    if path == "" then ""
    else
      var rest := path[1..];
      if path[0] != '{' then [path[0]] + NormalizePath(rest)
      else if Converts(rest) then "{" + NameOf(rest) + "}" + NormalizePath(rest[NextBrace(rest) + 1..])
      else "{" + NormalizePath(rest)
  }

  lemma {:induction false} PlainPrefix(a: string, b: string)
    requires forall j :: 0 <= j < |a| ==> a[j] != '{'
    ensures NormalizePath(a + b) == a + NormalizePath(b)
    decreases |a|
  {
    if a == "" {
      assert a + b == b;
    } else {
      assert (a + b)[1..] == a[1..] + b;
      PlainPrefix(a[1..], b);
    }
  }

  lemma KeepsFirst(path: string)
    requires path != ""
    ensures NormalizePath(path) != "" && NormalizePath(path)[0] == path[0]
  {
  }

  /** Normalising changes nothing before the first brace, and keeps that brace. */
  lemma KeepsToBrace(path: string)
    ensures NextBrace(NormalizePath(path)) == NextBrace(path)
    ensures var e := NextBrace(path);
      e <= |NormalizePath(path)| && NormalizePath(path)[..e] == path[..e]
      && (e == |path| ==> |NormalizePath(path)| == e)
      && (e < |path| ==> e < |NormalizePath(path)| && NormalizePath(path)[e] == path[e])
  {
    var e := NextBrace(path);
    var tail := path[e..];
    assert path == path[..e] + tail;
    PlainPrefix(path[..e], tail);
    var n := NormalizePath(path);
    assert n == path[..e] + NormalizePath(tail);
    if e < |path| {
      KeepsFirst(tail);
    }
    NextBraceUnique(n, e);
  }

  /** The three ways NormalizePath goes, one step each. */
  lemma NormalizeStep(path: string)
    requires path != ""
    ensures path[0] != '{' ==> NormalizePath(path) == [path[0]] + NormalizePath(path[1..])
    ensures path[0] == '{' && !Converts(path[1..]) ==> NormalizePath(path) == "{" + NormalizePath(path[1..])
    ensures path[0] == '{' && Converts(path[1..])
            ==> NormalizePath(path)
                == "{" + NameOf(path[1..]) + "}" + NormalizePath(path[1..][NextBrace(path[1..]) + 1..])
  {
    hide Converts, NameOf;
  }

  /** Normalising a normalised path changes nothing. */
  lemma {:induction false} NormalizeIdempotent(path: string)
    ensures NormalizePath(NormalizePath(path)) == NormalizePath(path)
    decreases |path|
  {
    if path != "" {
      hide NormalizePath, Converts, NameOf;
      var rest := path[1..];
      NormalizeStep(path);
      if path[0] != '{' {
        NormalizeIdempotent(rest);
        PlainFirst(path[0], NormalizePath(rest));
      } else if Converts(rest) {
        var tail := rest[NextBrace(rest) + 1..];
        NormalizeIdempotent(tail);
        BareName(NameOf(rest), NormalizePath(tail));
      } else {
        NormalizeIdempotent(rest);
        StillNoConverter(rest);
      }
    }
  }

  lemma PlainFirst(c: char, tail: string)
    requires c != '{'
    ensures NormalizePath([c] + tail) == [c] + NormalizePath(tail)
  {
    NormalizeStep([c] + tail);
    assert ([c] + tail)[1..] == tail;
  }

  lemma BareName(name: string, tail: string)
    requires forall j :: 0 <= j < |name| ==> !IsBrace(name[j]) && name[j] != ':'
    ensures NormalizePath("{" + name + "}" + tail) == "{" + name + "}" + NormalizePath(tail)
  {
    var all := "{" + name + "}" + tail;
    var rest := name + "}" + tail;
    assert all[1..] == rest;
    NextBraceUnique(rest, |name|);
    assert rest[..|name|] == name;
    FindUnique(name, ':', |name|);
    NormalizeStep(all);
    hide NormalizePath;
    assert rest == (name + "}") + tail;
    PlainPrefix(name + "}", tail);
    assert "{" + (name + "}" + NormalizePath(tail)) == "{" + name + "}" + NormalizePath(tail);
  }

  lemma StillNoConverter(rest: string)
    requires !Converts(rest)
    ensures NormalizePath("{" + NormalizePath(rest)) == "{" + NormalizePath(NormalizePath(rest))
  {
    var n := NormalizePath(rest);
    KeepsToBrace(rest);
    assert ("{" + n)[1..] == n;
  }

  /** Normalising splits before every opening brace: no parameter reaches across one. */
  lemma {:induction false} SplitsAtBrace(a: string, b: string)
    requires b != "" && b[0] == '{'
    ensures NormalizePath(a + b) == NormalizePath(a) + NormalizePath(b)
    decreases |a|
  {
    hide NormalizePath, NameOf;
    if a == "" {
      assert a + b == b && NormalizePath(a) == "" by { EmptyPath(); }
    } else {
      var rest := a[1..];
      assert (a + b)[1..] == rest + b;
      NormalizeStep(a);
      NormalizeStep(a + b);
      SameConverter(rest, b);
      if a[0] == '{' && Converts(rest) {
        var tail := rest[NextBrace(rest) + 1..];
        assert (rest + b)[NextBrace(rest) + 1..] == tail + b;
        SplitsAtBrace(tail, b);
      } else {
        SplitsAtBrace(rest, b);
      }
    }
  }

  lemma EmptyPath()
    ensures NormalizePath("") == ""
  {
  }

  lemma SameConverter(rest: string, b: string)
    requires b != "" && b[0] == '{'
    ensures Converts(rest + b) <==> Converts(rest)
    ensures Converts(rest) ==> NextBrace(rest + b) == NextBrace(rest) && NameOf(rest + b) == NameOf(rest)
  {
    var end := NextBrace(rest);
    NextBraceUnique(rest + b, end);
    assert (rest + b)[..end] == rest[..end];
  }

  /** A name without braces or colons and a converter without braces, neither empty. */
  predicate IsParameter(name: string, converter: string) {
    && name != "" && (forall j :: 0 <= j < |name| ==> !IsBrace(name[j]) && name[j] != ':')
    && converter != "" && (forall j :: 0 <= j < |converter| ==> !IsBrace(converter[j]))
  }

  lemma ParameterConverts(name: string, converter: string, b: string)
    requires IsParameter(name, converter)
    ensures var rest := name + ":" + converter + "}" + b;
      Converts(rest) && NextBrace(rest) == |name| + 1 + |converter| && NameOf(rest) == name
  {
    var content := name + ":" + converter;
    var rest := content + "}" + b;
    assert rest[|content|] == '}';
    assert forall j :: 0 <= j < |content| ==> rest[j] == content[j] && !IsBrace(content[j]);
    NextBraceUnique(rest, |content|);
    assert rest[..|content|] == content;
    FindUnique(content, ':', |name|);
    assert rest[..|name|] == name;
  }

  /** What the substitution does, on strings: wherever a parameter with a converter stands, its converter
      goes and its name stays, and the text before and after it is normalised on its own. */
  lemma ConverterStripped(a: string, name: string, converter: string, b: string)
    requires IsParameter(name, converter)
    ensures NormalizePath(a + "{" + name + ":" + converter + "}" + b)
      == NormalizePath(a) + "{" + name + "}" + NormalizePath(b)
    ensures '{' !in a ==> NormalizePath(a) == a
  {
    hide NormalizePath, Converts, NameOf;
    var rest := name + ":" + converter + "}" + b;
    ParameterConverts(name, converter, b);
    var segment := "{" + rest;
    assert segment[1..] == rest;
    NormalizeStep(segment);
    assert rest[NextBrace(rest) + 1..] == b;
    SplitsAtBrace(a, segment);
    assert a + "{" + name + ":" + converter + "}" + b == a + segment;
    if '{' !in a {
      PlainPrefix(a, "");
      assert a + "" == a && NormalizePath("") == "" by { EmptyPath(); }
    }
    assert NormalizePath(a) + ("{" + name + "}" + NormalizePath(b))
        == NormalizePath(a) + "{" + name + "}" + NormalizePath(b);
  }

  ghost predicate HasParameter(path: string) {
    exists a, name, converter, b :: ParameterAt(path, a, name, converter, b)
  }

  predicate ParameterAt(path: string, a: string, name: string, converter: string, b: string) {
    IsParameter(name, converter) && path == a + "{" + name + ":" + converter + "}" + b
  }

  /** Exactly the paths without such a parameter are left alone. */
  lemma NormalizedExactly(path: string)
    ensures NormalizePath(path) == path <==> !HasParameter(path)
  {
    if HasParameter(path) {
      var a, name, converter, b :| ParameterAt(path, a, name, converter, b);
      ConverterStripped(a, name, converter, b);
      NeverLonger(a);
      NeverLonger(b);
    } else {
      UnchangedWithout(path);
    }
  }

  lemma {:induction false} NeverLonger(path: string)
    ensures |NormalizePath(path)| <= |path|
    decreases |path|
  {
    hide NormalizePath, HasConverter, NameOf;
    if path == "" {
      EmptyPath();
    } else {
      LengthStep(path);
      var rest := path[1..];
      NeverLonger(if path[0] == '{' && Converts(rest) then rest[NextBrace(rest) + 1..] else rest);
    }
  }

  lemma {:induction false} LengthStep(path: string)
    requires path != ""
    ensures var rest := path[1..];
      if path[0] == '{' && Converts(rest) then
        |NormalizePath(path)| <= NextBrace(rest) + 1 + |NormalizePath(rest[NextBrace(rest) + 1..])|
      else |NormalizePath(path)| == 1 + |NormalizePath(rest)|
  {
    hide NormalizePath;
    NormalizeStep(path);
  }

  lemma ParameterRead(rest: string)
    requires Converts(rest)
    ensures HasParameter("{" + rest)
  {
    var end := NextBrace(rest);
    var content := rest[..end];
    var colon := Find(content, ':');
    var name, converter, b := content[..colon], content[colon + 1..], rest[end + 1..];
    assert content == name + ":" + converter;
    assert "{" + rest == "" + "{" + name + ":" + converter + "}" + b;
    assert ParameterAt("{" + rest, "", name, converter, b);
  }

  lemma ParameterLater(c: char, rest: string)
    requires HasParameter(rest)
    ensures HasParameter([c] + rest)
  {
    var a, name, converter, b :| ParameterAt(rest, a, name, converter, b);
    assert [c] + (a + "{" + name + ":" + converter + "}" + b) == [c] + a + "{" + name + ":" + converter + "}" + b;
    assert ParameterAt([c] + rest, [c] + a, name, converter, b);
  }

  /** Without a parameter nothing happens at the first character, and none follows it. */
  lemma {:induction false} NothingAtFirst(path: string)
    requires path != "" && !HasParameter(path)
    ensures !HasParameter(path[1..]) && NormalizePath(path) == [path[0]] + NormalizePath(path[1..])
  {
    hide NormalizePath, NameOf, Converts, HasParameter;
    var rest := path[1..];
    assert path == [path[0]] + rest;
    NormalizeStep(path);
    if path[0] == '{' && Converts(rest) {
      ParameterRead(rest);
    }
    if HasParameter(rest) {
      ParameterLater(path[0], rest);
    }
  }

  lemma {:induction false} UnchangedWithout(path: string)
    requires !HasParameter(path)
    ensures NormalizePath(path) == path
    decreases |path|
  {
    hide NormalizePath, HasParameter;
    if path == "" {
      EmptyPath();
    } else {
      NothingAtFirst(path);
      UnchangedWithout(path[1..]);
    }
  }

  // ---------------------------------------------------------------- dependencies

  /** A dependency callable; `action` is the tag require_action leaves on its guard. */
  datatype Call = Call(action: Option<string>)

  datatype Dependant = Dependant(call: Option<Call>, dependencies: seq<Dependant>)

  function DependantCalls(d: Dependant): seq<Call>
    decreases d, 1
  {
    CallsOf(d.dependencies)
  }

  function CallsOf(subs: seq<Dependant>): seq<Call>
    decreases subs, 0
  {
    if subs == [] then []
    else (if subs[0].call.Some? then [subs[0].call.value] else []) + DependantCalls(subs[0]) + CallsOf(subs[1..])
  }

  /** The dependency reached from d by following child positions. */
  ghost predicate Below(d: Dependant, path: seq<nat>, found: Dependant)
    decreases |path|
  {
    path != [] && path[0] < |d.dependencies|
    && var sub := d.dependencies[path[0]];
       if |path| == 1 then sub == found else Below(sub, path[1..], found)
  }

  /** The action is required somewhere in the dependency tree of d, at any depth. */
  ghost predicate Wired(d: Dependant, action: string) { exists path, found :: WiredAt(d, path, found, action) }

  ghost predicate WiredAt(d: Dependant, path: seq<nat>, found: Dependant, action: string) {
    Below(d, path, found) && found.call == Some(Call(Some(action)))
  }

  /** The walk finds a tag exactly when it is wired somewhere in the tree. */
  lemma {:induction false} CallsFindWired(d: Dependant, action: string)
    ensures Call(Some(action)) in DependantCalls(d) <==> Wired(d, action)
    decreases d, 1
  {
    CallsOfFind(d, 0, action);
    assert d.dependencies[0..] == d.dependencies;
    if exists k :: 0 <= k < |d.dependencies| && ChildWired(d.dependencies[k], action) {
      var k :| 0 <= k < |d.dependencies| && ChildWired(d.dependencies[k], action);
      ChildGivesPath(d, k, action);
    }
    if Wired(d, action) {
      var path, found :| WiredAt(d, path, found, action);
      PathGivesChild(d, path, found, action);
    }
  }

  ghost predicate ChildWired(sub: Dependant, action: string) {
    sub.call == Some(Call(Some(action))) || Wired(sub, action)
  }

  lemma ChildGivesPath(d: Dependant, k: nat, action: string)
    requires k < |d.dependencies| && ChildWired(d.dependencies[k], action)
    ensures Wired(d, action)
  {
    var sub := d.dependencies[k];
    if sub.call == Some(Call(Some(action))) {
      assert WiredAt(d, [k], sub, action);
    } else {
      var path, found :| WiredAt(sub, path, found, action);
      assert ([k] + path)[1..] == path;
      assert WiredAt(d, [k] + path, found, action);
    }
  }

  lemma PathGivesChild(d: Dependant, path: seq<nat>, found: Dependant, action: string)
    requires WiredAt(d, path, found, action)
    ensures path[0] < |d.dependencies| && ChildWired(d.dependencies[path[0]], action)
  {
    if |path| > 1 {
      assert WiredAt(d.dependencies[path[0]], path[1..], found, action);
    }
  }

  lemma {:induction false} CallsOfFind(d: Dependant, from: nat, action: string)
    requires from <= |d.dependencies|
    ensures Call(Some(action)) in CallsOf(d.dependencies[from..])
            <==> exists k :: from <= k < |d.dependencies| && ChildWired(d.dependencies[k], action)
    decreases d, 0, |d.dependencies| - from
  {
    if from < |d.dependencies| {
      CallsFindWired(d.dependencies[from], action);
      CallsOfFind(d, from + 1, action);
      assert d.dependencies[from..][1..] == d.dependencies[from + 1..];
    }
  }

  // ---------------------------------------------------------------- the router tree

  datatype Route = Route(path: string, methods: seq<string>, inSchema: bool, dependant: Dependant)

  /** A mounted route; a node that exposes its routes; an include, which exposes them through its
      original router; or something with neither. The prefix is the include context's, if any. */
  datatype Node =
    | Leaf(route: Route)
    | Mount(prefix: Option<string>, routes: seq<Node>)
    | Included(prefix: Option<string>, original: seq<Node>)
    | Other

  /** A mounted route under its full path. */
  type Found = (string, Route)

  function Nested(outer: string, prefix: Option<string>): string {
    if prefix.Some? then outer + prefix.value else outer
  }

  lemma NestedAppends(outer: string, prefix: Option<string>)
    ensures Nested(outer, prefix) == outer + OrElse(prefix, "")
  {
  }

  function NodeRoutes(n: Node, outer: string): seq<Found>
    decreases n, 1
  {
    match n
    case Leaf(route) => [(outer + route.path, route)]
    case Mount(prefix, routes) => ApiRoutes(routes, Nested(outer, prefix))
    case Included(prefix, original) => ApiRoutes(original, Nested(outer, prefix))
    case Other => []
  }

  function ApiRoutes(nodes: seq<Node>, outer: string): seq<Found>
    decreases nodes, 0
  {
    if nodes == [] then [] else NodeRoutes(nodes[0], outer) + ApiRoutes(nodes[1..], outer)
  }

  function HiddenRoutes(found: seq<Found>): seq<Found> {
    if found == [] then []
    else (if found[0].1.inSchema then [] else [found[0]]) + HiddenRoutes(found[1..])
  }

  /** A place in a list of nodes: its first node, a place inside its first node, or one further on. */
  datatype Place = Here | Into(inner: Place) | Next(later: Place)

  /** The leaf at a place, under the include prefixes passed on the way to it, in the order passed. */
  function At(nodes: seq<Node>, place: Place, outer: string): Option<Found>
    decreases place
  {
    if nodes == [] then None
    else match place
         case Here => if nodes[0].Leaf? then Some((outer + nodes[0].route.path, nodes[0].route)) else None
         case Next(later) => At(nodes[1..], later, outer)
         case Into(inner) =>
           match nodes[0]
           case Mount(prefix, routes) => At(routes, inner, outer + OrElse(prefix, ""))
           case Included(prefix, original) => At(original, inner, outer + OrElse(prefix, ""))
           case _ => None
  }

  /** The places of all leaves, in walk order. */
  function NodePlaces(n: Node): seq<Place>
    decreases n, 1
  {
    match n
    case Leaf(_) => [Here]
    case Mount(_, routes) => Inside(Places(routes))
    case Included(_, original) => Inside(Places(original))
    case Other => []
  }

  function Places(nodes: seq<Node>): seq<Place>
    decreases nodes, 0
  {
    if nodes == [] then [] else NodePlaces(nodes[0]) + Later(Places(nodes[1..]))
  }

  function Inside(places: seq<Place>): (r: seq<Place>)
    ensures |r| == |places| && forall i :: 0 <= i < |r| ==> r[i] == Into(places[i])
  {
    seq(|places|, i requires 0 <= i < |places| => Into(places[i]))
  }

  function Later(places: seq<Place>): (r: seq<Place>)
    ensures |r| == |places| && forall i :: 0 <= i < |r| ==> r[i] == Next(places[i])
  {
    seq(|places|, i requires 0 <= i < |places| => Next(places[i]))
  }

  /** The i-th yield of the walk is the leaf at the i-th place. */
  lemma {:induction false} WalkFollowsPlaces(nodes: seq<Node>, outer: string)
    ensures FoundAt(nodes, outer, Places(nodes), ApiRoutes(nodes, outer))
    decreases nodes, 0
  {
    if nodes != [] {
      NodeFollowsPlaces(nodes, outer);
      WalkFollowsPlaces(nodes[1..], outer);
      FoundLater(nodes, outer, Places(nodes[1..]), ApiRoutes(nodes[1..], outer));
      hide FoundAt;
      FoundJoined(nodes, outer, NodePlaces(nodes[0]), NodeRoutes(nodes[0], outer),
                  Later(Places(nodes[1..])), ApiRoutes(nodes[1..], outer));
    }
  }

  /** Place by place, the leaf there. */
  predicate FoundAt(nodes: seq<Node>, outer: string, places: seq<Place>, found: seq<Found>) {
    |found| == |places| && forall i :: 0 <= i < |places| ==> At(nodes, places[i], outer) == Some(found[i])
  }

  lemma FoundJoined(nodes: seq<Node>, outer: string, a: seq<Place>, x: seq<Found>, b: seq<Place>, y: seq<Found>)
    requires FoundAt(nodes, outer, a, x) && FoundAt(nodes, outer, b, y)
    ensures FoundAt(nodes, outer, a + b, x + y)
  {
    hide At;
  }

  lemma FoundLater(nodes: seq<Node>, outer: string, places: seq<Place>, found: seq<Found>)
    requires nodes != [] && FoundAt(nodes[1..], outer, places, found)
    ensures FoundAt(nodes, outer, Later(places), found)
  {
    hide At;
    forall i | 0 <= i < |places| ensures At(nodes, Next(places[i]), outer) == Some(found[i]) {
      NextIsLater(nodes, places[i], outer);
    }
  }

  lemma NextIsLater(nodes: seq<Node>, later: Place, outer: string)
    requires nodes != []
    ensures At(nodes, Next(later), outer) == At(nodes[1..], later, outer)
  {
  }

  lemma {:induction false} NodeFollowsPlaces(nodes: seq<Node>, outer: string)
    requires nodes != []
    ensures FoundAt(nodes, outer, NodePlaces(nodes[0]), NodeRoutes(nodes[0], outer))
    decreases nodes[0], 1
  {
    match nodes[0]
    case Mount(prefix, routes) =>
      NestedAppends(outer, prefix);
      WalkFollowsPlaces(routes, Nested(outer, prefix));
    case Included(prefix, original) =>
      NestedAppends(outer, prefix);
      WalkFollowsPlaces(original, Nested(outer, prefix));
    case _ =>
  }

  lemma {:induction false} PlacesDistinct(nodes: seq<Node>)
    ensures forall i, j :: 0 <= i < j < |Places(nodes)| ==> Places(nodes)[i] != Places(nodes)[j]
    decreases nodes, 0
  {
    if nodes != [] {
      NodePlacesDistinct(nodes[0]);
      PlacesDistinct(nodes[1..]);
      assert Places(nodes) == NodePlaces(nodes[0]) + Later(Places(nodes[1..]));
    }
  }

  lemma {:induction false} NodePlacesDistinct(n: Node)
    ensures forall i, j :: 0 <= i < j < |NodePlaces(n)| ==> NodePlaces(n)[i] != NodePlaces(n)[j]
    ensures forall i :: 0 <= i < |NodePlaces(n)| ==> !NodePlaces(n)[i].Next?
    decreases n, 1
  {
    match n
    case Mount(_, routes) => PlacesDistinct(routes);
    case Included(_, original) => PlacesDistinct(original);
    case _ =>
  }

  lemma {:induction false} PlaceListed(nodes: seq<Node>, place: Place, outer: string)
    requires At(nodes, place, outer).Some?
    ensures place in Places(nodes)
    decreases place
  {
    var first, rest := NodePlaces(nodes[0]), Places(nodes[1..]);
    assert Places(nodes) == first + Later(rest);
    match place
    case Here => assert first[0] == Here;
    case Next(later) =>
      PlaceListed(nodes[1..], later, outer);
      var i :| 0 <= i < |rest| && rest[i] == later;
      assert Later(rest)[i] == place;
    case Into(inner) =>
      var children := if nodes[0].Mount? then nodes[0].routes else nodes[0].original;
      PlaceListed(children, inner, outer + OrElse(nodes[0].prefix, ""));
      var i :| 0 <= i < |Places(children)| && Places(children)[i] == inner;
      assert first[i] == place;
  }

  /** The walk yields every mounted leaf exactly once, under the concatenation of the include prefixes
      above it: its yields correspond one to one to the places that hold a leaf. */
  lemma EachLeafOnce(nodes: seq<Node>, outer: string)
    ensures |ApiRoutes(nodes, outer)| == |Places(nodes)|
    ensures forall i :: 0 <= i < |Places(nodes)|
              ==> At(nodes, Places(nodes)[i], outer) == Some(ApiRoutes(nodes, outer)[i])
    ensures forall i, j :: 0 <= i < j < |Places(nodes)| ==> Places(nodes)[i] != Places(nodes)[j]
    ensures forall place :: At(nodes, place, outer).Some? <==> place in Places(nodes)
  {
    WalkFollowsPlaces(nodes, outer);
    PlacesDistinct(nodes);
    forall place ensures At(nodes, place, outer).Some? <==> place in Places(nodes) {
      if At(nodes, place, outer).Some? {
        PlaceListed(nodes, place, outer);
      }
    }
  }
}
