/**
 The 401 and 403 responses of the generated API description: which operations an auth guard stands
 in front of is read off each route's dependency tree.
 */
module AuthDocs {
  import opened Options

  datatype Call = RequireUser | RequireAdmin | OtherCall(id: nat)

  datatype Dependant = Dependant(call: Option<Call>, dependencies: seq<Dependant>)

  datatype Route = ApiRoute(path: string, methods: seq<string>, dependant: Dependant) | OtherRoute

  datatype Response = AuthenticationRequired | AdminRequired | OtherResponse(text: string)

  /** What stands under a method name of a path; only operations are dictionaries. */
  datatype Entry = Operation(responses: Option<map<string, Response>>, rest: string) | NoDict(text: string)

  type PathItem = map<string, Entry>

  /** The generated description always has a version and a title, so it is never falsy. */
  datatype Schema = Schema(title: string, version: string, paths: map<string, PathItem>)

  // ---------- The dependency tree ----------

  function CallsInAll(ds: seq<Dependant>): set<Call>
    decreases ds, 1
  {
    if ds == [] then {} else CallsIn(ds[0]) + CallsInAll(ds[1..])
  }

  /** Every call in the tree. */
  function CallsIn(d: Dependant): set<Call>
    decreases d, 0
  {
    (if d.call.Some? then {d.call.value} else {}) + CallsInAll(d.dependencies)
  }

  function SizeAll(ds: seq<Dependant>): nat
    decreases ds, 1
  {
    if ds == [] then 0 else Size(ds[0]) + SizeAll(ds[1..])
  }

  function Size(d: Dependant): nat
    decreases d, 0
  {
    1 + SizeAll(d.dependencies)
  }

  lemma {:induction false} AppendDependants(a: seq<Dependant>, b: seq<Dependant>)
    ensures CallsInAll(a + b) == CallsInAll(a) + CallsInAll(b)
    ensures SizeAll(a + b) == SizeAll(a) + SizeAll(b)
  {
    if a == [] {
      assert a + b == b;
    } else {
      assert (a + b)[1..] == a[1..] + b;
      AppendDependants(a[1..], b);
    }
  }

  lemma {:induction false} OneDependant(d: Dependant)
    ensures CallsInAll([d]) == CallsIn(d) && SizeAll([d]) == Size(d)
  {
    assert [d][1..] == [];
  }

  /** The stack holds fewer nodes after every step, whatever the popped one pushes. */
  method CallsInDependant(dependant: Dependant) returns (calls: set<Call>)
    ensures calls == CallsIn(dependant)
  {
    calls := {};
    var stack := [dependant];
    OneDependant(dependant);
    while stack != []
      invariant calls + CallsInAll(stack) == CallsIn(dependant)
      decreases SizeAll(stack)
    {
      var dep := stack[|stack| - 1];
      var below := stack[..|stack| - 1];
      assert stack == below + [dep];
      AppendDependants(below, [dep]);
      OneDependant(dep);
      AppendDependants(below, dep.dependencies);
      if dep.call.Some? {
        calls := calls + {dep.call.value};
      }
      stack := below + dep.dependencies;
    }
  }

  // ---------- Guards and operations ----------

  function LowerChar(c: char): char {
    if 'A' <= c <= 'Z' then c - 'A' + 'a' else c
  }

  function Lower(s: string): string {
    if s == "" then "" else [LowerChar(s[0])] + Lower(s[1..])
  }

  ghost predicate Serves(r: Route, path: string, method_: string) {
    r.ApiRoute? && r.path == path && exists i :: 0 <= i < |r.methods| && Lower(r.methods[i]) == method_
  }

  predicate NeedsAdmin(r: Route)
    requires r.ApiRoute?
  {
    RequireAdmin in CallsIn(r.dependant)
  }

  predicate NeedsUser(r: Route)
    requires r.ApiRoute?
  {
    NeedsAdmin(r) || RequireUser in CallsIn(r.dependant)
  }

  /** Some route serves the operation behind a guard. */
  ghost predicate UserGuarded(routes: seq<Route>, path: string, method_: string) {
    exists r :: r in routes && Serves(r, path, method_) && NeedsUser(r)
  }

  ghost predicate AdminGuarded(routes: seq<Route>, path: string, method_: string) {
    exists r :: r in routes && Serves(r, path, method_) && NeedsAdmin(r)
  }

  function SetDefault(responses: map<string, Response>, code: string, response: Response): map<string, Response> {
    if code in responses then responses else responses[code := response]
  }

  function WithResponses(e: Entry, user: bool, admin: bool): Entry {
    if e.NoDict? || !user then e
    else
      var responses := if e.responses.Some? then e.responses.value else map[];
      var with401 := SetDefault(responses, "401", AuthenticationRequired);
      e.(responses := Some(if admin then SetDefault(with401, "403", AdminRequired) else with401))
  }

  ghost function DocumentedItem(routes: seq<Route>, path: string, item: PathItem): PathItem {
    map m | m in item :: WithResponses(item[m], UserGuarded(routes, path, m), AdminGuarded(routes, path, m))
  }

  ghost function DocumentedPaths(routes: seq<Route>, paths: map<string, PathItem>): map<string, PathItem> {
    map p | p in paths :: DocumentedItem(routes, p, paths[p])
  }

  ghost function Documented(routes: seq<Route>, schema: Schema): Schema {
    schema.(paths := DocumentedPaths(routes, schema.paths))
  }

  // ---------- The pass over the routes ----------

  lemma {:induction false} GuardStep(routes: seq<Route>, r: Route, path: string, m: string)
    ensures UserGuarded(routes + [r], path, m) <==> UserGuarded(routes, path, m) || (Serves(r, path, m) && NeedsUser(r))
    ensures AdminGuarded(routes + [r], path, m)
           <==> AdminGuarded(routes, path, m) || (Serves(r, path, m) && NeedsAdmin(r))
  {
    hide CallsIn;
    assert r in routes + [r];
    if q :| q in routes && Serves(q, path, m) && NeedsUser(q) {
      assert q in routes + [r];
    }
    if q :| q in routes && Serves(q, path, m) && NeedsAdmin(q) {
      assert q in routes + [r];
    }
  }

  /** A route's effect on one path item. */
  method DocumentItem(r: Route, item: PathItem, needs403: bool) returns (after: PathItem)
    requires r.ApiRoute? && NeedsUser(r) && needs403 == NeedsAdmin(r)
    ensures after.Keys == item.Keys
    ensures forall m | m in item ::
              after[m] == WithResponses(item[m], Serves(r, r.path, m), Serves(r, r.path, m) && needs403)
  {
    hide CallsIn, Lower;
    after := item;
    for i := 0 to |r.methods|
      invariant after.Keys == item.Keys
      invariant forall m | m in item ::
        var served := exists j :: 0 <= j < i && Lower(r.methods[j]) == m;
        after[m] == WithResponses(item[m], served, served && needs403)
    {
      var name := Lower(r.methods[i]);
      if name !in after || after[name].NoDict? {
        continue;
      }
      var op := after[name];
      var responses := if op.responses.Some? then op.responses.value else map[];
      responses := SetDefault(responses, "401", AuthenticationRequired);
      if needs403 {
        responses := SetDefault(responses, "403", AdminRequired);
      }
      after := after[name := op.(responses := Some(responses))];
    }
  }

  lemma {:induction false} NothingGuarded(paths: map<string, PathItem>)
    ensures DocumentedPaths([], paths) == paths
  {
    forall p | p in paths
      ensures DocumentedItem([], p, paths[p]) == paths[p]
    {
    }
  }

  /** A route that needs nobody, or is no API route, adds nothing. */
  lemma {:induction false} SkipStep(routes: seq<Route>, r: Route, paths: map<string, PathItem>)
    requires r.ApiRoute? ==> !NeedsUser(r)
    ensures DocumentedPaths(routes + [r], paths) == DocumentedPaths(routes, paths)
  {
    hide CallsIn, UserGuarded, AdminGuarded, WithResponses;
    forall p | p in paths
      ensures DocumentedItem(routes + [r], p, paths[p]) == DocumentedItem(routes, p, paths[p])
    {
      forall m
        ensures UserGuarded(routes + [r], p, m) == UserGuarded(routes, p, m)
        ensures AdminGuarded(routes + [r], p, m) == AdminGuarded(routes, p, m)
      {
        GuardStep(routes, r, p, m);
      }
    }
  }

  /** Nor does a route whose path is not described. */
  lemma {:induction false} AbsentStep(routes: seq<Route>, r: Route, paths: map<string, PathItem>)
    requires r.ApiRoute?
    requires r.path !in DocumentedPaths(routes, paths) || DocumentedPaths(routes, paths)[r.path] == map[]
    ensures DocumentedPaths(routes + [r], paths) == DocumentedPaths(routes, paths)
  {
    hide CallsIn, UserGuarded, AdminGuarded, WithResponses;
    forall p | p in paths
      ensures DocumentedItem(routes + [r], p, paths[p]) == DocumentedItem(routes, p, paths[p])
    {
      if p == r.path {
        assert DocumentedPaths(routes, paths)[p] == DocumentedItem(routes, p, paths[p]);
        assert DocumentedItem(routes, p, paths[p]).Keys == paths[p].Keys;
        assert paths[p].Keys == {};
      }
      forall m
        ensures p == r.path || UserGuarded(routes + [r], p, m) == UserGuarded(routes, p, m)
        ensures p == r.path || AdminGuarded(routes + [r], p, m) == AdminGuarded(routes, p, m)
      {
        GuardStep(routes, r, p, m);
      }
    }
  }

  lemma {:induction false} RouteStep(
    routes: seq<Route>, r: Route, paths: map<string, PathItem>,
    before: map<string, PathItem>, after: map<string, PathItem>)
    requires r.ApiRoute? && NeedsUser(r)
    requires before == DocumentedPaths(routes, paths) && r.path in before
    requires after.Keys == before.Keys && forall p | p in before && p != r.path :: after[p] == before[p]
    requires after[r.path].Keys == before[r.path].Keys
    requires forall m | m in before[r.path] :: after[r.path][m]
               == WithResponses(before[r.path][m], Serves(r, r.path, m), Serves(r, r.path, m) && NeedsAdmin(r))
    ensures after == DocumentedPaths(routes + [r], paths)
  {
    hide CallsIn, UserGuarded, AdminGuarded, WithResponses, NeedsUser, NeedsAdmin;
    forall p | p in paths
      ensures after[p] == DocumentedItem(routes + [r], p, paths[p])
    {
      assert before[p] == DocumentedItem(routes, p, paths[p]);
      forall m | m in paths[p]
        ensures after[p][m] == DocumentedItem(routes + [r], p, paths[p])[m]
      {
        GuardStep(routes, r, p, m);
        AdminIsUser(routes, p, m);
        if p == r.path {
          ResponsesCompose(paths[p][m], UserGuarded(routes, p, m), AdminGuarded(routes, p, m),
                           Serves(r, p, m), Serves(r, p, m) && NeedsAdmin(r));
        }
      }
    }
  }

  /** The routes one after the other, each changing the description that the ones before it left. */
  method DocumentRoutes(routes: seq<Route>, generated: Schema) returns (schema: Schema)
    ensures schema == Documented(routes, generated)
  {
    hide CallsIn, Serves, UserGuarded, AdminGuarded, WithResponses;
    var paths := generated.paths;
    NothingGuarded(paths);
    for i := 0 to |routes|
      invariant paths == DocumentedPaths(routes[..i], generated.paths)
    {
      var r := routes[i];
      ghost var before := paths;
      assert routes[..i + 1] == routes[..i] + [r];
      if r.OtherRoute? {
        SkipStep(routes[..i], r, generated.paths);
        continue;
      }
      var calls := CallsInDependant(r.dependant);
      var needs403 := RequireAdmin in calls;
      var needs401 := needs403 || RequireUser in calls;
      if !needs401 {
        SkipStep(routes[..i], r, generated.paths);
        continue;
      }
      if r.path !in paths || paths[r.path] == map[] {
        AbsentStep(routes[..i], r, generated.paths);
        continue;
      }
      var item := DocumentItem(r, paths[r.path], needs403);
      paths := paths[r.path := item];
      RouteStep(routes[..i], r, generated.paths, before, paths);
    }
    assert routes[..|routes|] == routes;
    schema := generated.(paths := paths);
  }

  /** Adding responses in two steps is adding them in one. */
  lemma {:induction false} ResponsesCompose(e: Entry, user: bool, admin: bool, user': bool, admin': bool)
    requires (admin ==> user) && (admin' ==> user')
    ensures WithResponses(WithResponses(e, user, admin), user', admin')
         == WithResponses(e, user || user', admin || admin')
  {
  }

  lemma {:induction false} AdminIsUser(routes: seq<Route>, path: string, m: string)
    ensures AdminGuarded(routes, path, m) ==> UserGuarded(routes, path, m)
  {
  }

  /** The application keeps the description it made first. */
  class App {
    var routes: seq<Route>
    var openapiSchema: Option<Schema>

    constructor (routes: seq<Route>)
      ensures this.routes == routes && openapiSchema == None
    {
      this.routes := routes;
      openapiSchema := None;
    }

    method CustomOpenapi(generated: Schema) returns (schema: Schema)
      modifies this`openapiSchema
      ensures openapiSchema == Some(schema)
      ensures schema == if old(openapiSchema).Some? then old(openapiSchema).value else Documented(routes, generated)
    {
      if openapiSchema.Some? {
        return openapiSchema.value;
      }
      schema := DocumentRoutes(routes, generated);
      openapiSchema := Some(schema);
    }
  }

  // ---------- What the pass documents ----------

  function ResponsesOf(e: Entry): map<string, Response> {
    if e.Operation? && e.responses.Some? then e.responses.value else map[]
  }

  /** The call stands somewhere in the dependency tree. */
  ghost predicate DependsOn(d: Dependant, call: Call)
    decreases d
  {
    d.call == Some(call) || exists i :: 0 <= i < |d.dependencies| && DependsOn(d.dependencies[i], call)
  }

  lemma {:induction false} CallsAreAny(ds: seq<Dependant>, call: Call)
    ensures call in CallsInAll(ds) <==> exists i :: 0 <= i < |ds| && DependsOn(ds[i], call)
    decreases ds, 1
  {
    if ds == [] {
    } else {
      CallsAre(ds[0], call);
      CallsAreAny(ds[1..], call);
      if i :| 0 <= i < |ds[1..]| && DependsOn(ds[1..][i], call) {
        assert DependsOn(ds[i + 1], call);
      }
      if i :| 0 <= i < |ds| && DependsOn(ds[i], call) {
        assert i > 0 ==> DependsOn(ds[1..][i - 1], call);
      }
    }
  }

  lemma {:induction false} CallsAre(d: Dependant, call: Call)
    ensures call in CallsIn(d) <==> DependsOn(d, call)
    decreases d, 0
  {
    CallsAreAny(d.dependencies, call);
  }

  /** The second is the first with small letters in place of the capitals A to Z. */
  ghost predicate InSmallLetters(name: string, small: string) {
    |name| == |small|
    && forall k | 0 <= k < |name| ::
         small[k] as int == if 65 <= name[k] as int <= 90 then name[k] as int + 32 else name[k] as int
  }

  lemma {:induction false} LowerSpells(name: string)
    ensures InSmallLetters(name, Lower(name))
  {
    if name == "" {
    } else {
      LowerSpells(name[1..]);
      assert Lower(name)[1..] == Lower(name[1..]);
      assert forall k | 0 < k < |name| :: name[k] == name[1..][k - 1] && Lower(name)[k] == Lower(name[1..])[k - 1];
    }
  }

  lemma {:induction false} LowerIs(name: string)
    ensures forall small :: Lower(name) == small <==> InSmallLetters(name, small)
  {
    LowerSpells(name);
    forall small | InSmallLetters(name, small)
      ensures Lower(name) == small
    {
    }
  }

  /** The route serves the operation and depends on the call. */
  ghost predicate GuardedBy(r: Route, path: string, m: string, call: Call) {
    && r.ApiRoute? && r.path == path
    && (exists i :: 0 <= i < |r.methods| && InSmallLetters(r.methods[i], m))
    && DependsOn(r.dependant, call)
  }

  /** Which operations are guarded: by the trees of the routes that serve them. */
  lemma {:induction false} GuardedIff(routes: seq<Route>, path: string, m: string)
    ensures AdminGuarded(routes, path, m) <==> exists r :: r in routes && GuardedBy(r, path, m, RequireAdmin)
    ensures UserGuarded(routes, path, m)
       <==> exists r :: r in routes && (GuardedBy(r, path, m, RequireAdmin) || GuardedBy(r, path, m, RequireUser))
  {
    hide CallsIn, DependsOn, Lower, InSmallLetters;
    forall r: Route | r.ApiRoute?
      ensures Serves(r, path, m) && NeedsAdmin(r) <==> GuardedBy(r, path, m, RequireAdmin)
      ensures Serves(r, path, m) && NeedsUser(r)
         <==> GuardedBy(r, path, m, RequireAdmin) || GuardedBy(r, path, m, RequireUser)
    {
      CallsAre(r.dependant, RequireAdmin);
      CallsAre(r.dependant, RequireUser);
      forall i | 0 <= i < |r.methods|
        ensures Lower(r.methods[i]) == m <==> InSmallLetters(r.methods[i], m)
      {
        LowerIs(r.methods[i]);
      }
    }
  }

  /**
   An operation has a 401 afterwards exactly if it had one or a user or admin guard stands before it,
   a 403 exactly if it had one or an admin guard does, and a new one says what it is for; what it had is
   kept, and nothing else changes.
   */
  lemma {:induction false} DocumentsExactly(routes: seq<Route>, schema: Schema, path: string, m: string)
    requires path in schema.paths && m in schema.paths[path]
    ensures path in Documented(routes, schema).paths && m in Documented(routes, schema).paths[path]
    ensures
      var before, after := schema.paths[path][m], Documented(routes, schema).paths[path][m];
      && (before.Operation? ==>
            && after.Operation? && after.rest == before.rest
            && ("401" in ResponsesOf(after) <==> "401" in ResponsesOf(before) || UserGuarded(routes, path, m))
            && ("403" in ResponsesOf(after) <==> "403" in ResponsesOf(before) || AdminGuarded(routes, path, m)))
      && (forall code | code in ResponsesOf(before) ::
            code in ResponsesOf(after) && ResponsesOf(after)[code] == ResponsesOf(before)[code])
      && (forall code | code in ResponsesOf(after) && code !in ResponsesOf(before) ::
            || (code == "401" && ResponsesOf(after)[code] == AuthenticationRequired)
            || (code == "403" && ResponsesOf(after)[code] == AdminRequired))
      && ("403" in ResponsesOf(after) && "403" !in ResponsesOf(before) ==> "401" in ResponsesOf(after))
      && (before.NoDict? || !UserGuarded(routes, path, m) ==> after == before)
  {
    hide UserGuarded, AdminGuarded;
    AdminIsUser(routes, path, m);
    var item := schema.paths[path];
    assert Documented(routes, schema).paths[path] == DocumentedItem(routes, path, item);
    assert DocumentedItem(routes, path, item)[m]
        == WithResponses(item[m], UserGuarded(routes, path, m), AdminGuarded(routes, path, m));
  }

  /** Title, version, paths and the names under each path stay. */
  lemma {:induction false} OutlineKept(routes: seq<Route>, schema: Schema)
    ensures
      var after := Documented(routes, schema);
      && after.title == schema.title && after.version == schema.version && after.paths.Keys == schema.paths.Keys
      && forall path | path in schema.paths :: after.paths[path].Keys == schema.paths[path].Keys
  {
    hide WithResponses, UserGuarded, AdminGuarded;
  }

  /** The pass leaves its own result alone. */
  lemma {:induction false} DocumentedTwice(routes: seq<Route>, schema: Schema)
    ensures Documented(routes, Documented(routes, schema)) == Documented(routes, schema)
  {
    hide UserGuarded, AdminGuarded, WithResponses;
    var once := Documented(routes, schema).paths;
    forall p | p in schema.paths
      ensures DocumentedItem(routes, p, once[p]) == once[p]
    {
      forall m | m in schema.paths[p]
        ensures DocumentedItem(routes, p, once[p])[m] == once[p][m]
      {
        var user, admin := UserGuarded(routes, p, m), AdminGuarded(routes, p, m);
        AdminIsUser(routes, p, m);
        ResponsesCompose(schema.paths[p][m], user, admin, user, admin);
      }
    }
  }

  /** Neither the order of the routes nor a repetition matters. */
  lemma {:induction false} RouteOrderIsIrrelevant(a: seq<Route>, b: seq<Route>, schema: Schema)
    requires forall r :: r in a <==> r in b
    ensures Documented(a, schema) == Documented(b, schema)
  {
    hide Serves, WithResponses;
    forall p | p in schema.paths
      ensures DocumentedItem(a, p, schema.paths[p]) == DocumentedItem(b, p, schema.paths[p])
    {
      forall m | m in schema.paths[p]
        ensures UserGuarded(a, p, m) == UserGuarded(b, p, m) && AdminGuarded(a, p, m) == AdminGuarded(b, p, m)
      {
      }
    }
  }
}
