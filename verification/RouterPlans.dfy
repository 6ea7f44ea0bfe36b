/** Routers put together by route, merge and route_layer: when that succeeds, and that the
    result serves what one router given all routes directly would. */
module RouterPlans {
  import opened Types
  import opened Routing

  /** How a router may be put together. */
  datatype Plan =
    | New
    | Route(router: Plan, path: string, service: Service)
    | Merge(router: Plan, other: Plan)
    | RouteLayer(router: Plan, layer: Service -> Service)

  type Routes = seq<(string, Service)>

  /** All the routes of a plan listed directly, each with the layers that apply to it. */
  function Direct(plan: Plan): Routes {
    match plan
    case New => []
    case Route(router, path, service) => Direct(router) + [(path, service)]
    case Merge(router, other) => Direct(router) + Direct(other)
    case RouteLayer(router, layer) => LayerAll(layer, Direct(router))
  }

  function LayerAll(layer: Service -> Service, routes: Routes): Routes {
    if routes == [] then [] else [(routes[0].0, layer(routes[0].1))] + LayerAll(layer, routes[1..])
  }

  function MapOf(routes: Routes): Services {
    if routes == [] then map[] else MapOf(routes[..|routes| - 1])[routes[|routes| - 1].0 := routes[|routes| - 1].1]
  }

  ghost predicate PathsDistinct(routes: Routes) {
    forall i, j :: 0 <= i < j < |routes| ==> routes[i].0 != routes[j].0
  }

  /** Distinct routes make a map that holds exactly them. */
  lemma {:induction false} MapOfHoldsRoutes(routes: Routes)
    requires PathsDistinct(routes)
    ensures forall p :: p in MapOf(routes) ==> (p, MapOf(routes)[p]) in routes
    ensures forall r :: r in routes ==> r.0 in MapOf(routes) && MapOf(routes)[r.0] == r.1
  {
    if routes == [] {
    } else {
      var init, last := routes[..|routes| - 1], routes[|routes| - 1];
      MapOfHoldsRoutes(init);
      assert routes == init + [last];
      forall r | r in init ensures r.0 != last.0 {
        var i :| 0 <= i < |init| && init[i] == r;
        assert routes[i].0 != routes[|routes| - 1].0;
      }
    }
  }

  /** The order in which routes are given does not matter. */
  lemma SameRoutesSameMap(xs: Routes, ys: Routes)
    requires PathsDistinct(xs) && PathsDistinct(ys)
    requires forall r :: r in xs <==> r in ys
    ensures MapOf(xs) == MapOf(ys)
  {
    MapOfHoldsRoutes(xs);
    MapOfHoldsRoutes(ys);
  }

  lemma {:induction false} MapOfConcat(xs: Routes, ys: Routes)
    ensures MapOf(xs + ys) == MapOf(xs) + MapOf(ys)
  {
    if ys == [] {
      assert xs + ys == xs;
    } else {
      assert (xs + ys)[..|xs + ys| - 1] == xs + ys[..|ys| - 1];
      MapOfConcat(xs, ys[..|ys| - 1]);
    }
  }

  lemma {:induction false} DistinctConcat(xs: Routes, ys: Routes)
    requires PathsDistinct(xs) && PathsDistinct(ys) && MapOf(xs).Keys !! MapOf(ys).Keys
    ensures PathsDistinct(xs + ys)
  {
    MapOfHoldsRoutes(xs);
    MapOfHoldsRoutes(ys);
    var all := xs + ys;
    forall i, j | 0 <= i < j < |all| ensures all[i].0 != all[j].0 {
      if i < |xs| <= j {
        assert all[i] in xs && all[j] in ys;
      }
    }
  }

  lemma {:induction false} MapOfLayered(layer: Service -> Service, routes: Routes)
    ensures |LayerAll(layer, routes)| == |routes|
    ensures forall i :: 0 <= i < |routes| ==> LayerAll(layer, routes)[i] == (routes[i].0, layer(routes[i].1))
  {
    if routes == [] {
    } else {
      MapOfLayered(layer, routes[1..]);
    }
  }

  lemma {:induction false} LayeredMap(layer: Service -> Service, routes: Routes)
    ensures MapOf(LayerAll(layer, routes)) == Layered(layer, MapOf(routes))
  {
    MapOfLayered(layer, routes);
    if routes == [] {
    } else {
      var init := routes[..|routes| - 1];
      LayeredMap(layer, init);
      MapOfLayered(layer, init);
      assert LayerAll(layer, routes)[..|routes| - 1] == LayerAll(layer, init);
    }
  }

  /** The route ids that a plan uses up: merged routes are given new ones. */
  function IdsUsed(plan: Plan): nat {
    match plan
    case New => 0
    case Route(router, _, _) => IdsUsed(router) + 1
    case Merge(router, other) => IdsUsed(router) + IdsUsed(other) + |Direct(other)|
    case RouteLayer(router, _) => IdsUsed(router)
  }

  /** Nothing stands in the way of adding these routes, whatever the order. */
  ghost predicate Buildable(m: Matcher, routes: Routes) {
    PathsDistinct(routes) && Harmonious(m, MapOf(routes).Keys)
  }

  lemma PartsAreBuildable(m: Matcher, xs: Routes, ys: Routes)
    requires Buildable(m, xs + ys)
    ensures Buildable(m, xs) && Buildable(m, ys)
    ensures MapOf(xs).Keys !! MapOf(ys).Keys && Harmonious(m, MapOf(xs).Keys + MapOf(ys).Keys)
  {
    var all := xs + ys;
    MapOfConcat(xs, ys);
    forall i, j | 0 <= i < j < |xs| ensures xs[i].0 != xs[j].0 {
      assert all[i].0 != all[j].0;
    }
    forall i, j | 0 <= i < j < |ys| ensures ys[i].0 != ys[j].0 {
      assert all[i + |xs|].0 != all[j + |xs|].0;
    }
    PartsAreDisjoint(xs, ys);
  }

  lemma PartsAreDisjoint(xs: Routes, ys: Routes)
    requires PathsDistinct(xs) && PathsDistinct(ys) && PathsDistinct(xs + ys)
    ensures MapOf(xs).Keys !! MapOf(ys).Keys
  {
    var all := xs + ys;
    MapOfHoldsRoutes(xs);
    MapOfHoldsRoutes(ys);
    forall i, j | 0 <= i < |xs| && 0 <= j < |ys| ensures xs[i].0 != ys[j].0 {
      assert all[i].0 != all[j + |xs|].0;
    }
    forall p | p in MapOf(xs) ensures p !in MapOf(ys) {
      assert (p, MapOf(xs)[p]) in xs;
    }
  }

  lemma LayeredIsBuildable(m: Matcher, layer: Service -> Service, routes: Routes)
    requires Buildable(m, LayerAll(layer, routes))
    ensures Buildable(m, routes)
  {
    LayeredMap(layer, routes);
    MapOfLayered(layer, routes);
    var layered := LayerAll(layer, routes);
    forall i, j | 0 <= i < j < |routes| ensures routes[i].0 != routes[j].0 {
      assert layered[i].0 != layered[j].0;
    }
    assert MapOf(layered).Keys == MapOf(routes).Keys;
  }

  function PathsOf(routes: Routes): (paths: seq<string>)
    ensures |paths| == |routes| && forall i :: 0 <= i < |routes| ==> paths[i] == routes[i].0
  {
    seq(|routes|, i requires 0 <= i < |routes| => routes[i].0)
  }

  lemma {:induction false} ElementsOfPaths(routes: Routes)
    ensures Elements(PathsOf(routes)) == MapOf(routes).Keys
  {
    if routes == [] {
    } else {
      var init, last := routes[..|routes| - 1], routes[|routes| - 1];
      ElementsOfPaths(init);
      assert PathsOf(routes) == PathsOf(init) + [last.0];
      ElementsOneMore(PathsOf(init), last.0);
    }
  }

  /** The paths of a plan agree with each other, in the order in which it registers them. */
  ghost predicate Agrees(m: Matcher, plan: Plan) {
    match plan
    case New => true
    case Route(router, path, _) => Agrees(m, router) && Fits(m, MapOf(Direct(router)).Keys, path)
    case Merge(router, other) =>
      && Agrees(m, router) && Agrees(m, other)
      && InOrder(m, MapOf(Direct(router)).Keys, PathsOf(Direct(other)))
    case RouteLayer(router, _) => Agrees(m, router)
  }

  /** The exact condition under which a plan can be built. */
  ghost predicate MayBuild(m: Matcher, plan: Plan, counter: nat) {
    counter + IdsUsed(plan) <= U32_MAX && Agrees(m, plan)
  }

  /** The router for a plan: its services, its paths in the order of their ids, the number
      of its routes, and the route id counter before and after. */
  ghost predicate Built(plan: Plan, before: nat, after: nat, services: Services, listing: seq<string>, routes: nat) {
    && after == before + IdsUsed(plan)
    && listing == PathsOf(Direct(plan)) && routes == |Direct(plan)|
    && PathsDistinct(Direct(plan)) && services == MapOf(Direct(plan))
  }

  lemma PathsOfConcat(xs: Routes, ys: Routes)
    ensures PathsOf(xs + ys) == PathsOf(xs) + PathsOf(ys)
  {
  }

  lemma RouteBuilds(plan: Plan, before: nat, after: nat, services: Services, listing: seq<string>, routes: nat)
    requires plan.Route? && Built(plan.router, before, after, services, listing, routes)
    ensures plan.path !in services ==>
              Built(plan, before, after + 1, services[plan.path := plan.service], listing + [plan.path], routes + 1)
  {
    var first, more := Direct(plan.router), Direct(plan);
    assert more[..|more| - 1] == first;
    PathsOfConcat(first, [(plan.path, plan.service)]);
    DistinctOneMore(first, plan.path, plan.service);
  }

  lemma MergeBuilds(plan: Plan, before: nat, mid: nat, after: nat, mine: Services, listing: seq<string>, count: nat,
                    theirs: Services, listed: seq<string>, routes: nat)
    requires plan.Merge? && mine.Keys !! theirs.Keys
    requires Built(plan.router, before, mid, mine, listing, count)
    requires Built(plan.other, mid, after, theirs, listed, routes)
    ensures Built(plan, before, after + routes, mine + theirs, listing + listed, count + routes)
  {
    var xs, ys := Direct(plan.router), Direct(plan.other);
    MapOfConcat(xs, ys);
    DistinctConcat(xs, ys);
    PathsOfConcat(xs, ys);
  }

  lemma LayerBuilds(plan: Plan, before: nat, after: nat, services: Services, listing: seq<string>, routes: nat)
    requires plan.RouteLayer? && Built(plan.router, before, after, services, listing, routes)
    ensures Built(plan, before, after, Layered(plan.layer, services), listing, routes)
  {
    LayeredMap(plan.layer, Direct(plan.router));
    MapOfLayered(plan.layer, Direct(plan.router));
    assert PathsOf(Direct(plan)) == PathsOf(Direct(plan.router));
  }

  ghost predicate IsBuilt(plan: Plan, before: nat, router: Router)
    reads router, router.ids
  {
    && router.Valid()
    && Built(plan, before, router.ids.counter, router.Served(), Listing(router.idToPath), |router.routes|)
  }

  /** A router is built, without panicking, exactly if its paths agree with each other in the
      order of the plan and there are route ids left. It serves exactly the routes of its
      plan, so it dispatches like one that was given all of them directly, in any order. */
  method Build(matcher: Matcher, ids: RouteIds, plan: Plan) returns (ok: bool, router: Router)
    requires Lawful(matcher) && ids.counter <= U32_MAX
    modifies ids
    ensures fresh(router) && router.matcher == matcher && router.ids == ids
    ensures ok == MayBuild(matcher, plan, old(ids.counter))
    ensures ok ==> IsBuilt(plan, old(ids.counter), router)
    decreases plan, 1
  {
    match plan {
      case New =>
        router := new Router(matcher, ids);
        ok := true;
      case Route(_, _, _) =>
        ok, router := BuildRoute(matcher, ids, plan);
      case Merge(_, _) =>
        ok, router := BuildMerge(matcher, ids, plan);
      case RouteLayer(_, _) =>
        ok, router := BuildLayer(matcher, ids, plan);
    }
  }

  method BuildRoute(matcher: Matcher, ids: RouteIds, plan: Plan) returns (ok: bool, router: Router)
    requires Lawful(matcher) && ids.counter <= U32_MAX && plan.Route?
    modifies ids
    ensures fresh(router) && router.matcher == matcher && router.ids == ids
    ensures ok == MayBuild(matcher, plan, old(ids.counter))
    ensures ok ==> IsBuilt(plan, old(ids.counter), router)
    decreases plan, 0
  {
    ghost var before := ids.counter;
    ok, router := Build(matcher, ids, plan.router);
    if ok {
      RouteBuilds(plan, before, ids.counter, router.Served(), Listing(router.idToPath), |router.routes|);
      ok := router.Route(plan.path, plan.service);
    }
  }

  method BuildLayer(matcher: Matcher, ids: RouteIds, plan: Plan) returns (ok: bool, router: Router)
    requires Lawful(matcher) && ids.counter <= U32_MAX && plan.RouteLayer?
    modifies ids
    ensures fresh(router) && router.matcher == matcher && router.ids == ids
    ensures ok == MayBuild(matcher, plan, old(ids.counter))
    ensures ok ==> IsBuilt(plan, old(ids.counter), router)
    decreases plan, 0
  {
    ghost var before := ids.counter;
    ok, router := Build(matcher, ids, plan.router);
    if ok {
      LayerBuilds(plan, before, ids.counter, router.Served(), Listing(router.idToPath), |router.routes|);
      router.RouteLayer(plan.layer);
    }
  }

  method BuildMerge(matcher: Matcher, ids: RouteIds, plan: Plan) returns (ok: bool, router: Router)
    requires Lawful(matcher) && ids.counter <= U32_MAX && plan.Merge?
    modifies ids
    ensures fresh(router) && router.matcher == matcher && router.ids == ids
    ensures ok == MayBuild(matcher, plan, old(ids.counter))
    ensures ok ==> IsBuilt(plan, old(ids.counter), router)
    decreases plan, 0
  {
    ghost var before := ids.counter;
    ok, router := Build(matcher, ids, plan.router);
    if ok {
      ghost var mid := ids.counter;
      var other;
      ok, other := Build(matcher, ids, plan.other);
      if ok {
        ok := MergeBuilt(plan, before, mid, router, other);
      }
    }
  }

  method MergeBuilt(ghost plan: Plan, ghost before: nat, ghost mid: nat, router: Router, other: Router)
    returns (ok: bool)
    requires Lawful(router.matcher) && plan.Merge? && router.Valid() && router != other && router.ids == other.ids
    requires Built(plan.router, before, mid, router.Served(), Listing(router.idToPath), |router.routes|)
    requires IsBuilt(plan.other, mid, other)
    modifies router`routes, router`inner, router`idToPath, router`pathToId, router.ids
    ensures ok == (old(router.ids.counter) + |Direct(plan.other)| <= U32_MAX
                   && InOrder(router.matcher, MapOf(Direct(plan.router)).Keys, PathsOf(Direct(plan.other))))
    ensures ok ==> IsBuilt(plan, before, router)
  {
    ghost var mine, theirs, after := router.Served(), other.Served(), router.ids.counter;
    ghost var listing, listed := Listing(router.idToPath), Listing(other.idToPath);
    ghost var count, routes := |router.routes|, |other.routes|;
    TakenInOrder(router.matcher, mine.Keys, other.idToPath);
    SameSize(other.routes, other.idToPath);
    ok := router.Merge(other);
    if ok {
      MergeBuilds(plan, before, mid, after, mine, listing, count, theirs, listed, routes);
    }
  }

  /** What a built router answers with: the service that the plan registers, with its layers,
      for the path that the matcher selects among all paths of the plan. */
  method Answer(ghost plan: Plan, ghost before: nat, router: Router, request: string) returns (service: Option<Service>)
    requires Lawful(router.matcher) && IsBuilt(plan, before, router)
    ensures forall s ::
              service == Some(s) <==>
              exists p :: router.matcher.select(Elements(PathsOf(Direct(plan))), request) == Some(p)
                          && (p, s) in Direct(plan)
  {
    service := router.Call(request);
    ElementsOfPaths(Direct(plan));
    MapOfHoldsRoutes(Direct(plan));
    forall s ensures service == Some(s) <==>
                       exists p :: router.matcher.select(Elements(PathsOf(Direct(plan))), request) == Some(p)
                                   && (p, s) in Direct(plan)
    {
      if service == Some(s) {
        var p := router.matcher.select(Elements(PathsOf(Direct(plan))), request).value;
        assert (p, s) in Direct(plan);
      }
    }
  }

  // ------------------------------------------------------------ when order is no matter

  lemma HarmonyIsInOrder(m: Matcher, mine: set<string>, routes: Routes)
    requires PathsDistinct(routes) && mine !! MapOf(routes).Keys && Harmonious(m, mine + MapOf(routes).Keys)
    ensures InOrder(m, mine, PathsOf(routes))
  {
    var paths, all := PathsOf(routes), mine + MapOf(routes).Keys;
    ElementsOfPaths(routes);
    forall i | 0 <= i < |paths| ensures Fits(m, mine + Elements(paths[..i]), paths[i]) {
      assert paths[i] in Elements(paths);
      assert Elements(paths[..i]) <= Elements(paths);
      assert paths[i] !in Elements(paths[..i]);
      assert mine + Elements(paths[..i]) <= all;
    }
  }

  /** Distinct paths that do not conflict in any order make every plan succeed that has
      them, whatever the order in which it puts them together. */
  lemma {:induction false} HarmonyAgrees(m: Matcher, plan: Plan)
    requires Buildable(m, Direct(plan))
    ensures Agrees(m, plan)
  {
    match plan
    case New =>
    case Route(first, path, service) =>
      PartsAreBuildable(m, Direct(first), [(path, service)]);
      LastIsFree(m, Direct(first), path, service);
      HarmonyAgrees(m, first);
    case Merge(first, second) =>
      PartsAreBuildable(m, Direct(first), Direct(second));
      HarmonyIsInOrder(m, MapOf(Direct(first)).Keys, Direct(second));
      HarmonyAgrees(m, first);
      HarmonyAgrees(m, second);
    case RouteLayer(first, layer) =>
      LayeredIsBuildable(m, layer, Direct(first));
      HarmonyAgrees(m, first);
  }

  lemma LastIsFree(m: Matcher, routes: Routes, path: string, service: Service)
    requires Buildable(m, routes + [(path, service)])
    ensures Absolute(path) && !m.conflicts(MapOf(routes).Keys, path)
  {
    var all := routes + [(path, service)];
    assert all[..|all| - 1] == routes;
    PartsAreBuildable(m, routes, [(path, service)]);
    assert MapOf([(path, service)]).Keys == {path};
  }

  lemma DistinctOneMore(routes: Routes, path: string, service: Service)
    requires PathsDistinct(routes)
    ensures path !in MapOf(routes) ==> PathsDistinct(routes + [(path, service)])
  {
    MapOfHoldsRoutes(routes);
    if path !in MapOf(routes) {
      forall i | 0 <= i < |routes| ensures routes[i].0 != path {
        assert routes[i] in routes;
      }
    }
  }
}
