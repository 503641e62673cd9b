/** The webhook registry: keys, registration, and the rebuild at startup. */
module Webhooks {
  import opened Values
  import opened Workflows

  datatype Route = Route(workflow: int, path: string, httpMethod: string, verifyToken: string)

  /** The index from route keys to routes. */
  type Table = map<string, Route>

  // ---------- keys ----------

  function ToUpper(s: string): (r: string)
    ensures |r| == |s|
  {
    if s == "" then ""
    else [if 'a' <= s[0] <= 'z' then s[0] - 'a' + 'A' else s[0]] + ToUpper(s[1..])
  }

  function DropTrailingSlashes(s: string): string {
    if s != "" && s[|s| - 1] == '/' then DropTrailingSlashes(s[..|s| - 1]) else s
  }

  function Slashed(path: string): string {
    if path != "" && path[0] == '/' then path else "/" + path
  }

  function NormalizePath(path: string): string {
    DropTrailingSlashes(Slashed(path))
  }

  function RouteKey(httpMethod: string, path: string): string {
    ToUpper(httpMethod) + " " + NormalizePath(path)
  }

  function Key(r: Route): string {
    RouteKey(r.httpMethod, r.path)
  }

  lemma {:induction false} DropTrailingSlashesShape(s: string)
    ensures var r := DropTrailingSlashes(s);
      && (r == "" || r[|r| - 1] != '/') && |r| <= |s| && r == s[..|r|]
      && forall i :: |r| <= i < |s| ==> s[i] == '/'
    decreases |s|
  {
    if s == "" || s[|s| - 1] != '/' {
    } else {
      DropTrailingSlashesShape(s[..|s| - 1]);
    }
  }

  lemma NormalizedShape(path: string)
    ensures var r := NormalizePath(path); r == "" || (r[0] == '/' && r[|r| - 1] != '/')
  {
    DropTrailingSlashesShape(Slashed(path));
  }

  lemma NormalizeTwice(path: string)
    ensures NormalizePath(NormalizePath(path)) == NormalizePath(path)
  {
    NormalizedShape(path);
    assert DropTrailingSlashes("/") == "" by { assert "/"[..0] == ""; }
  }

  lemma OneMoreSlash(path: string)
    ensures NormalizePath(path + "/") == NormalizePath(path)
  {
    if path == "" {
      assert "/"[..0] == "" && "" + "/" == "/";
    } else {
      assert Slashed(path + "/") == Slashed(path) + "/";
      assert (Slashed(path) + "/")[..|Slashed(path)|] == Slashed(path);
    }
  }

  /** Normalising is idempotent, and blind to one leading and all trailing slashes. */
  lemma NormalizePathLaws(path: string)
    ensures NormalizePath(NormalizePath(path)) == NormalizePath(path)
    ensures var r := NormalizePath(path); r == "" || (r[0] == '/' && r[|r| - 1] != '/')
    ensures NormalizePath(path + "/") == NormalizePath(path)
    ensures (path != "" && path[0] != '/') ==> NormalizePath("/" + path) == NormalizePath(path)
  {
    NormalizeTwice(path);
    NormalizedShape(path);
    OneMoreSlash(path);
  }

  lemma {:induction false} ToUpperTwice(s: string)
    ensures ToUpper(ToUpper(s)) == ToUpper(s)
    decreases |s|
  {
    if s == "" {
    } else {
      ToUpperTwice(s[1..]);
    }
  }

  /** Upper-casing, letter by letter. */
  lemma {:induction false} ToUpperAt(s: string, i: nat)
    requires i < |s|
    ensures ToUpper(s)[i] == if 'a' <= s[i] <= 'z' then (s[i] as int - 32) as char else s[i]
    decreases |s|
  {
    if i == 0 {
    } else {
      ToUpperAt(s[1..], i - 1);
    }
  }

  /** r is s without its trailing slashes. */
  predicate WithoutTrail(s: string, r: string) {
    && |r| <= |s| && s[..|r|] == r && (r == "" || r[|r| - 1] != '/')
    && forall i :: |r| <= i < |s| ==> s[i] == '/'
  }

  /** r is the path with a leading slash and without its trailing slashes. */
  predicate IsNormalized(path: string, r: string) {
    if path != "" && path[0] == '/' then WithoutTrail(path, r) else WithoutTrail("/" + path, r)
  }

  lemma NormalizePathMeaning(path: string, r: string)
    ensures r == NormalizePath(path) <==> IsNormalized(path, r)
  {
    var s, n := Slashed(path), NormalizePath(path);
    DropTrailingSlashesShape(s);
    if IsNormalized(path, r) {
      SameCut(s, |r|, |n|);
    }
  }

  /** There is one place behind which a text has only slashes and before which it has another character. */
  lemma SameCut(s: string, a: nat, b: nat)
    requires a <= |s| && (s[..a] == "" || s[..a][a - 1] != '/') && forall i :: a <= i < |s| ==> s[i] == '/'
    requires b <= |s| && (s[..b] == "" || s[..b][b - 1] != '/') && forall i :: b <= i < |s| ==> s[i] == '/'
    ensures a == b
  {
    assert a == 0 || s[a - 1] != '/';
    assert b == 0 || s[b - 1] != '/';
  }

  /** Two routes share a key exactly when their methods agree up to case and their paths up to slashes, for
      methods without spaces. */
  lemma KeysDiffer(m: string, p: string, n: string, q: string)
    requires ' ' !in m && ' ' !in n
    ensures RouteKey(m, p) == RouteKey(n, q) <==> ToUpper(m) == ToUpper(n) && NormalizePath(p) == NormalizePath(q)
  {
    forall i | 0 <= i < |m| ensures ToUpper(m)[i] != ' ' { ToUpperAt(m, i); }
    forall i | 0 <= i < |n| ensures ToUpper(n)[i] != ' ' { ToUpperAt(n, i); }
    if RouteKey(m, p) == RouteKey(n, q) {
      CutAtSpace(ToUpper(m), NormalizePath(p), ToUpper(n), NormalizePath(q));
    }
  }

  lemma CutAtSpace(a: string, x: string, b: string, y: string)
    requires forall i :: 0 <= i < |a| ==> a[i] != ' '
    requires forall i :: 0 <= i < |b| ==> b[i] != ' '
    requires a + " " + x == b + " " + y
    ensures a == b && x == y
  {
    var s, t := a + " " + x, b + " " + y;
    assert s[|a|] == ' ' && t[|b|] == ' ';
    assert forall i :: 0 <= i < |a| ==> s[i] == a[i];
    assert forall i :: 0 <= i < |b| ==> t[i] == b[i];
    assert |a| == |b|;
    assert s[..|a|] == a && t[..|b|] == b && s[|a| + 1..] == x && t[|b| + 1..] == y;
  }

  /** A method with a space can take another route's key. */
  lemma SpacedMethodsCollide()
    ensures RouteKey("A /B", "/C") == RouteKey("A", "/B /C")
  {
    var m := "A /B";
    forall i | 0 <= i < |m| ensures ToUpper(m)[i] == m[i] { ToUpperAt(m, i); }
    assert ToUpper(m) == m;
    ToUpperAt("A", 0);
    assert ToUpper("A") == "A";
    NormalizePathMeaning("/C", "/C");
    NormalizePathMeaning("/B /C", "/B /C");
  }

  /** A route has one key however its method is cased and its path is slashed. */
  lemma RouteKeyIsCanonical(httpMethod: string, path: string)
    ensures RouteKey(ToUpper(httpMethod), NormalizePath(path)) == RouteKey(httpMethod, path)
    ensures RouteKey(httpMethod, path + "/") == RouteKey(httpMethod, path)
  {
    ToUpperTwice(httpMethod);
    NormalizePathLaws(path);
  }

  // ---------- the table ----------

  predicate WellIndexed(t: Table) {
    forall k :: k in t ==> Key(t[k]) == k
  }

  /** Register: a key that is taken stays with its first route. */
  function Added(t: Table, r: Route): Table {
    if Key(r) in t then t else t[Key(r) := r]
  }

  function AllAdded(t: Table, rs: seq<Route>): Table
    decreases |rs|
  {
    if rs == [] then t else AllAdded(Added(t, rs[0]), rs[1..])
  }

  function Without(t: Table, workflow: int): Table {
    map k | k in t && t[k].workflow != workflow :: t[k]
  }

  /** All keys are free and no two routes share one. */
  predicate Fits(t: Table, rs: seq<Route>) {
    && (forall i :: 0 <= i < |rs| ==> Key(rs[i]) !in t)
    && forall i, j :: 0 <= i < j < |rs| ==> Key(rs[i]) != Key(rs[j])
  }

  // ---------- the routes of a workflow ----------

  function NodeRoute(workflow: int, node: Node): Option<Route> {
    var path, m := StringField(node.data, "path"), StringField(node.data, "method");
    if !node.IsWebhook() || path == "" || m == "" then None
    else Some(Route(workflow, path, m, StringField(node.data, "verify_token")))
  }

  function RoutesOf(workflow: int, nodes: seq<Node>): (r: seq<Route>)
    ensures forall i :: 0 <= i < |r| ==> r[i].workflow == workflow
  {
    if nodes == [] then []
    else
      var route := NodeRoute(workflow, nodes[0]);
      (if route.Some? then [route.value] else []) + RoutesOf(workflow, nodes[1..])
  }

  /** The node is a webhook trigger that registers r. */
  ghost predicate Hooks(node: Node, r: Route) {
    && node.kind == Trigger
    && "triggerType" in node.data && node.data["triggerType"] == Str("webhook")
    && "path" in node.data && node.data["path"] == Str(r.path) && r.path != ""
    && "method" in node.data && node.data["method"] == Str(r.httpMethod) && r.httpMethod != ""
    && r.verifyToken == if "verify_token" in node.data && node.data["verify_token"].Str?
                        then node.data["verify_token"].s else ""
  }

  /** A node registers the route it describes, or none; a list of nodes theirs in order. */
  lemma RoutesOfOne(workflow: int, node: Node)
    ensures forall r :: Hooks(node, r) && r.workflow == workflow ==> RoutesOf(workflow, [node]) == [r]
    ensures (forall r :: Hooks(node, r) ==> r.workflow != workflow) ==> RoutesOf(workflow, [node]) == []
  {
    assert [node][1..] == [];
    var route := NodeRoute(workflow, node);
    if route.Some? { assert Hooks(node, route.value); }
  }

  lemma {:induction false} RoutesOfParts(workflow: int, a: seq<Node>, b: seq<Node>)
    ensures RoutesOf(workflow, a + b) == RoutesOf(workflow, a) + RoutesOf(workflow, b)
    decreases |a|
  {
    if a == [] {
      assert a + b == b;
    } else {
      assert (a + b)[1..] == a[1..] + b;
      RoutesOfParts(workflow, a[1..], b);
    }
  }

  /** The routes that a list of workflows contributes: those of the active ones, in order. */
  function ActiveRoutes(ds: seq<Definition>): seq<Route> {
    if ds == [] then []
    else (if ds[0].status.Active? then RoutesOf(ds[0].id, ds[0].nodes) else []) + ActiveRoutes(ds[1..])
  }

  lemma ActiveRoutesOfOne(d: Definition)
    ensures ActiveRoutes([d]) == if d.status == Active then RoutesOf(d.id, d.nodes) else []
  {
    assert [d][1..] == [];
  }

  /** The workflows on all pages before the first one that cannot be loaded. */
  function Loaded(pages: seq<Option<seq<Definition>>>): seq<Definition> {
    if pages == [] || pages[0].None? then [] else pages[0].value + Loaded(pages[1..])
  }

  // ---------- laws of adding ----------

  /** Page splits do not matter: adding a list is adding its parts one after the other. */
  lemma {:induction false} AddingPages(t: Table, a: seq<Route>, b: seq<Route>)
    ensures AllAdded(t, a + b) == AllAdded(AllAdded(t, a), b)
    decreases |a|
  {
    if a == [] {
      assert a + b == b;
    } else {
      assert (a + b)[1..] == a[1..] + b;
      AddingPages(Added(t, a[0]), a[1..], b);
    }
  }

  lemma {:induction false} ActiveRoutesOfPages(a: seq<Definition>, b: seq<Definition>)
    ensures ActiveRoutes(a + b) == ActiveRoutes(a) + ActiveRoutes(b)
    decreases |a|
  {
    if a == [] {
      assert a + b == b;
    } else {
      assert (a + b)[1..] == a[1..] + b;
      ActiveRoutesOfPages(a[1..], b);
    }
  }

  lemma NextPage(t: Table, page: seq<Definition>, rest: seq<Definition>)
    ensures AllAdded(t, ActiveRoutes(page + rest)) == AllAdded(AllAdded(t, ActiveRoutes(page)), ActiveRoutes(rest))
  {
    ActiveRoutesOfPages(page, rest);
    AddingPages(t, ActiveRoutes(page), ActiveRoutes(rest));
  }

  /** r is the first route with its key. */
  predicate FirstWithKey(rs: seq<Route>, i: int) {
    0 <= i < |rs| && forall j :: 0 <= j < i ==> Key(rs[j]) != Key(rs[i])
  }

  lemma {:induction false} EntriesStay(t: Table, rs: seq<Route>, k: string)
    requires k in t
    ensures k in AllAdded(t, rs) && AllAdded(t, rs)[k] == t[k]
    decreases |rs|
  {
    if rs == [] {
    } else {
      EntriesStay(Added(t, rs[0]), rs[1..], k);
    }
  }

  lemma {:induction false} FirstIsAdded(t: Table, rs: seq<Route>, i: int)
    requires FirstWithKey(rs, i) && Key(rs[i]) !in t
    ensures Key(rs[i]) in AllAdded(t, rs) && AllAdded(t, rs)[Key(rs[i])] == rs[i]
    decreases |rs|
  {
    var t1, rest := Added(t, rs[0]), rs[1..];
    if i == 0 {
      EntriesStay(t1, rest, Key(rs[0]));
    } else {
      assert rest[i - 1] == rs[i];
      assert forall j :: 0 <= j < i - 1 ==> rest[j] == rs[j + 1];
      FirstIsAdded(t1, rest, i - 1);
    }
  }

  lemma {:induction false} AddedIsFirst(t: Table, rs: seq<Route>, k: string) returns (i: int)
    requires k in AllAdded(t, rs) && k !in t
    ensures FirstWithKey(rs, i) && Key(rs[i]) == k
    decreases |rs|
  {
    if Key(rs[0]) == k {
      i := 0;
    } else {
      var rest := rs[1..];
      var j := AddedIsFirst(Added(t, rs[0]), rest, k);
      i := j + 1;
      assert forall l :: 0 < l < i ==> rs[l] == rest[l - 1];
    }
  }

  /** The first route per key wins, entries of the table before it. */
  lemma FirstRouteWins(t: Table, rs: seq<Route>)
    ensures var u := AllAdded(t, rs);
      && (forall k :: k in t ==> k in u && u[k] == t[k])
      && (forall i :: FirstWithKey(rs, i) && Key(rs[i]) !in t ==> Key(rs[i]) in u && u[Key(rs[i])] == rs[i])
      && (forall k :: k in u && k !in t ==> exists i :: FirstWithKey(rs, i) && Key(rs[i]) == k)
  {
    var u := AllAdded(t, rs);
    forall k | k in t ensures k in u && u[k] == t[k] { EntriesStay(t, rs, k); }
    forall i | FirstWithKey(rs, i) && Key(rs[i]) !in t ensures Key(rs[i]) in u && u[Key(rs[i])] == rs[i] {
      FirstIsAdded(t, rs, i);
    }
    forall k | k in u && k !in t ensures exists i :: FirstWithKey(rs, i) && Key(rs[i]) == k {
      var i := AddedIsFirst(t, rs, k);
    }
  }

  /** Behind routes that fit, one more fits exactly when its key is still free. */
  lemma KeyTakenIff(t: Table, done: seq<Route>, r: Route)
    requires Fits(t, done)
    ensures Key(r) in AllAdded(t, done) <==> !Fits(t, done + [r])
  {
    var u, all := AllAdded(t, done), done + [r];
    if Key(r) in t {
      EntriesStay(t, done, Key(r));
      assert all[|done|] == r;
    } else if Key(r) in u {
      var i := AddedIsFirst(t, done, Key(r));
      assert all[i] == done[i] && all[|done|] == r;
    } else if !Fits(t, all) {
      var i :| 0 <= i < |done| && Key(done[i]) == Key(r);
      assert FirstWithKey(done, i);
      FirstIsAdded(t, done, i);
    }
  }

  lemma AddingOne(t: Table, done: seq<Route>, r: Route)
    ensures AllAdded(t, done + [r]) == Added(AllAdded(t, done), r)
  {
    AddingPages(t, done, [r]);
    assert [r][1..] == [];
  }

  // ---------- the registry ----------

  class Registry {
    var routes: Table

    constructor ()
      ensures routes == map[]
    {
      routes := map[];
    }

    method Register(route: Route) returns (ok: bool)
      modifies this
      ensures ok == (Key(route) !in old(routes))
      ensures routes == Added(old(routes), route)
    {
      var key := Key(route);
      if key in routes { return false; }
      routes := routes[key := route];
      return true;
    }

    /** Deletes, key by key, the routes of one workflow. */
    method Unregister(workflow: int)
      modifies this
      ensures routes == Without(old(routes), workflow)
    {
      var keys := routes.Keys;
      while keys != {}
        invariant keys <= routes.Keys <= old(routes).Keys
        invariant forall k :: k in routes ==> routes[k] == old(routes)[k]
        invariant forall k :: k in routes && k !in keys ==> routes[k].workflow != workflow
        invariant forall k :: k in old(routes) && old(routes)[k].workflow != workflow ==> k in routes
        decreases |keys|
      {
        var key :| key in keys;
        keys := keys - {key};
        if routes[key].workflow == workflow {
          routes := routes - {key};
        }
      }
    }

    method Resolve(httpMethod: string, path: string) returns (route: Option<Route>)
      ensures route.Some? <==> RouteKey(httpMethod, path) in routes
      ensures route.Some? ==> route.value == routes[RouteKey(httpMethod, path)]
    {
      var key := RouteKey(httpMethod, path);
      if key in routes { return Some(routes[key]); }
      return None;
    }

    /** Registers all webhook routes of a workflow or, at the first taken key, none. */
    method RegisterWebhookRoutes(workflow: int, nodes: seq<Node>) returns (ok: bool)
      modifies this
      ensures ok == Fits(old(routes), RoutesOf(workflow, nodes))
      ensures routes == if ok then AllAdded(old(routes), RoutesOf(workflow, nodes))
                        else Without(old(routes), workflow)
    {
      ghost var before, all := routes, RoutesOf(workflow, nodes);
      ghost var done: seq<Route> := [];
      for i := 0 to |nodes|
        invariant all == done + RoutesOf(workflow, nodes[i..])
        invariant Fits(before, done) && routes == AllAdded(before, done)
        invariant forall k :: 0 <= k < |done| ==> done[k].workflow == workflow
      {
        RoutesFrom(workflow, nodes, i, done);
        var route := NodeRoute(workflow, nodes[i]);
        if route.Some? {
          var registered := Register(route.value);
          if !registered {
            Unregister(workflow);
            TakenKey(before, done, route.value, RoutesOf(workflow, nodes[i + 1..]), workflow);
            return false;
          }
          KeyTakenIff(before, done, route.value);
          AddingOne(before, done, route.value);
          done := done + [route.value];
        }
      }
      assert all == done;
      return true;
    }

    method Count() returns (n: nat)
      ensures n == |routes|
    {
      return |routes|;
    }

    /** Best-effort registration of all active workflows; counts the routes that got in. */
    method PopulateFromWorkflows(workflows: seq<Definition>) returns (registered: nat)
      modifies this
      ensures routes == AllAdded(old(routes), ActiveRoutes(workflows))
      ensures registered == |routes| - |old(routes)|
    {
      registered := 0;
      for i := 0 to |workflows|
        invariant AllAdded(old(routes), ActiveRoutes(workflows)) == AllAdded(routes, ActiveRoutes(workflows[i..]))
        invariant registered == |routes| - |old(routes)|
      {
        var d := workflows[i];
        assert workflows[i..][1..] == workflows[i + 1..];
        if d.status.Active? {
          AddingPages(routes, RoutesOf(d.id, d.nodes), ActiveRoutes(workflows[i + 1..]));
          var more := PopulateFromNodes(d.id, d.nodes);
          registered := registered + more;
        } else {
          assert ActiveRoutes(workflows[i..]) == ActiveRoutes(workflows[i + 1..]);
        }
      }
    }

    /** The startup loop over the pages of stored workflows; a page that cannot be loaded ends it. What it
        registers does not depend on where the list was split into pages, and the counts of all pages add
        up to the growth of the registry. */
    method PopulateFromPages(pages: seq<Option<seq<Definition>>>) returns (registered: nat)
      modifies this
      ensures routes == AllAdded(old(routes), ActiveRoutes(Loaded(pages)))
      ensures registered == |routes| - |old(routes)|
    {
      registered := 0;
      for i := 0 to |pages|
        invariant AllAdded(old(routes), ActiveRoutes(Loaded(pages)))
               == AllAdded(routes, ActiveRoutes(Loaded(pages[i..])))
        invariant registered == |routes| - |old(routes)|
      {
        assert pages[i..][0] == pages[i] && pages[i..][1..] == pages[i + 1..];
        if pages[i].None? { return; }
        var page := pages[i].value;
        NextPage(routes, page, Loaded(pages[i + 1..]));
        var more := PopulateFromWorkflows(page);
        registered := registered + more;
      }
    }

    method PopulateFromNodes(workflow: int, nodes: seq<Node>) returns (registered: nat)
      modifies this
      ensures routes == AllAdded(old(routes), RoutesOf(workflow, nodes))
      ensures registered == |routes| - |old(routes)|
    {
      registered := 0;
      for i := 0 to |nodes|
        invariant AllAdded(old(routes), RoutesOf(workflow, nodes)) == AllAdded(routes, RoutesOf(workflow, nodes[i..]))
        invariant registered == |routes| - |old(routes)|
      {
        assert nodes[i..][1..] == nodes[i + 1..];
        var route := NodeRoute(workflow, nodes[i]);
        if route.Some? {
          var ok := Register(route.value);
          if ok { registered := registered + 1; }
          assert RoutesOf(workflow, nodes[i..])[1..] == RoutesOf(workflow, nodes[i + 1..]);
        } else {
          assert RoutesOf(workflow, nodes[i..]) == RoutesOf(workflow, nodes[i + 1..]);
        }
      }
    }
  }

  lemma RoutesFrom(workflow: int, nodes: seq<Node>, i: nat, done: seq<Route>)
    requires i < |nodes|
    ensures var route, rest := NodeRoute(workflow, nodes[i]), RoutesOf(workflow, nodes[i + 1..]);
      done + RoutesOf(workflow, nodes[i..]) == (if route.Some? then done + [route.value] else done) + rest
  {
    assert nodes[i..][1..] == nodes[i + 1..];
  }

  /** A taken key means that the routes do not fit; giving up restores all other workflows' routes. */
  lemma TakenKey(t: Table, done: seq<Route>, r: Route, rest: seq<Route>, workflow: int)
    requires Fits(t, done) && Key(r) in AllAdded(t, done)
    requires forall k :: 0 <= k < |done| ==> done[k].workflow == workflow
    ensures !Fits(t, done + [r] + rest)
    ensures Without(AllAdded(t, done), workflow) == Without(t, workflow)
  {
    KeyTakenIff(t, done, r);
    NotFitting(t, done + [r], rest);
    PartialRollBack(t, done, workflow);
  }

  lemma NotFitting(t: Table, a: seq<Route>, b: seq<Route>)
    requires !Fits(t, a)
    ensures !Fits(t, a + b)
  {
    assert forall i :: 0 <= i < |a| ==> (a + b)[i] == a[i];
  }

  lemma PartialRollBack(t: Table, done: seq<Route>, workflow: int)
    requires forall k :: 0 <= k < |done| ==> done[k].workflow == workflow
    requires Fits(t, done)
    ensures Without(AllAdded(t, done), workflow) == Without(t, workflow)
  {
    FirstRouteWins(t, done);
    var u := AllAdded(t, done);
    forall k | k in u && k !in t ensures u[k].workflow == workflow {
      var i :| FirstWithKey(done, i) && Key(done[i]) == k;
      assert done[i] in done;
    }
  }
}
