/** The router: three linked tables kept in bijection by route, merge and route_layer,
    and what a router built by any combination of them dispatches to. */
module Routing {
  import opened Types

  const U32_MAX: nat := 0xFFFF_FFFF

  /** Services are opaque; 0 stands for nothing in particular. */
  type Service = nat

  /** The pattern matcher: inserting a pattern into a set fails if it conflicts, and a
      lookup depends on nothing but the set of patterns. */
  datatype Matcher = Matcher(conflicts: (set<string>, string) -> bool, select: (set<string>, string) -> Option<string>)

  ghost predicate Lawful(m: Matcher) {
    && (forall s: set<string>, p: string :: p in s ==> m.conflicts(s, p))
    && (forall s: set<string>, path: string :: m.select(s, path).Some? ==> m.select(s, path).value in s)
  }

  /** No path of the set stands in the way of another, in whatever order they come. */
  ghost predicate Harmonious(m: Matcher, paths: set<string>) {
    && (forall p :: p in paths ==> Absolute(p))
    && (forall s: set<string>, p: string :: s <= paths && p in paths && p !in s ==> !m.conflicts(s, p))
  }

  type Services = map<string, Service>

  predicate Absolute(path: string) {
    path != "" && path[0] == '/'
  }

  /** The counter that all routers draw their route ids from. */
  class RouteIds {
    var counter: nat

    constructor ()
      ensures counter == 0
    {
      counter := 0;
    }

    /** None stands for the panic on overflow; the counter wraps around all the same. */
    method Next() returns (id: Option<nat>)
      requires counter <= U32_MAX
      modifies this
      ensures id == if old(counter) == U32_MAX then None else Some(old(counter))
      ensures counter == if old(counter) == U32_MAX then 0 else old(counter) + 1
    {
      id := if counter == U32_MAX then None else Some(counter);
      counter := (counter + 1) % (U32_MAX + 1);
    }
  }

  /** Route ids, paths by id and ids by path are in exact bijection. */
  ghost predicate LinkedTables(routes: map<nat, Service>, inner: map<string, nat>, idToPath: map<nat, string>,
                               pathToId: map<string, nat>)
  {
    && routes.Keys == idToPath.Keys
    && inner == pathToId
    && (forall id :: id in idToPath ==> idToPath[id] in pathToId && pathToId[idToPath[id]] == id)
    && (forall p :: p in pathToId ==> pathToId[p] in idToPath && idToPath[pathToId[p]] == p)
  }

  ghost function ServedBy(routes: map<nat, Service>, pathToId: map<string, nat>): Services
    requires forall p :: p in pathToId ==> pathToId[p] in routes
  {
    map p | p in pathToId :: routes[pathToId[p]]
  }

  /** One more route under a fresh id and path keeps the tables linked. */
  lemma LinkedOneMore(routes: map<nat, Service>, idToPath: map<nat, string>, pathToId: map<string, nat>, id: nat,
                      path: string, service: Service)
    requires LinkedTables(routes, pathToId, idToPath, pathToId) && id !in routes && path !in pathToId
    ensures LinkedTables(routes[id := service], pathToId[path := id], idToPath[id := path], pathToId[path := id])
    ensures |routes[id := service]| == |routes| + 1
    ensures ServedBy(routes[id := service], pathToId[path := id]) == ServedBy(routes, pathToId)[path := service]
  {
    forall p | p in pathToId ensures pathToId[p] != id && pathToId[p] in routes[id := service] {}
  }

  class Router {
    const matcher: Matcher
    const ids: RouteIds
    var routes: map<nat, Service>
    /** The matcher's own table, and the two that make merging possible. */
    var inner: map<string, nat>
    var idToPath: map<nat, string>
    var pathToId: map<string, nat>

    ghost predicate Linked()
      reads this
    {
      LinkedTables(routes, inner, idToPath, pathToId)
    }

    ghost predicate Valid()
      reads this, ids
    {
      && Linked()
      && ids.counter <= U32_MAX
      && (forall id :: id in routes ==> id < ids.counter)
    }

    ghost function Served(): Services
      requires Linked()
      reads this
    {
      ServedBy(routes, pathToId)
    }

    constructor (matcher: Matcher, ids: RouteIds)
      requires ids.counter <= U32_MAX
      ensures this.matcher == matcher && this.ids == ids && Valid() && Served() == map[] && routes == map[]
    {
      this.matcher, this.ids := matcher, ids;
      routes, inner, idToPath, pathToId := map[], map[], map[], map[];
    }

    /** False stands for a panic. */
    method Insert(path: string, id: nat) returns (ok: bool)
      modifies this`inner, this`idToPath, this`pathToId
      ensures ok == !matcher.conflicts(old(inner).Keys, path)
      ensures ok ==> inner == old(inner)[path := id]
                     && idToPath == old(idToPath)[id := path] && pathToId == old(pathToId)[path := id]
      ensures !ok ==> inner == old(inner) && idToPath == old(idToPath) && pathToId == old(pathToId)
    {
      if matcher.conflicts(inner.Keys, path) {
        return false;
      }
      inner := inner[path := id];
      idToPath := idToPath[id := path];
      pathToId := pathToId[path := id];
      return true;
    }

    method Route(path: string, service: Service) returns (ok: bool)
      requires Valid() && Lawful(matcher)
      modifies this`routes, this`inner, this`idToPath, this`pathToId, ids
      ensures ok == (Absolute(path) && old(ids.counter) < U32_MAX && !matcher.conflicts(old(Served()).Keys, path))
      ensures ok ==> Valid() && path !in old(Served()) && Served() == old(Served())[path := service]
      ensures ok ==> ids.counter == old(ids.counter) + 1 && |routes| == |old(routes)| + 1
      ensures ok ==> Listing(idToPath) == old(Listing(idToPath)) + [path]
    {
      ghost var paths := idToPath;
      if !Absolute(path) {
        return false;
      }
      var next := ids.Next();
      if next.None? {
        return false;
      }
      ok := Register(path, next.value, service);
      ListingOneMore(paths, next.value, path);
    }

    method Register(path: string, id: nat, service: Service) returns (ok: bool)
      requires Lawful(matcher) && Linked() && id !in routes
      modifies this`routes, this`inner, this`idToPath, this`pathToId
      ensures ok == !matcher.conflicts(old(Served()).Keys, path)
      ensures ok ==> Linked() && routes.Keys == old(routes).Keys + {id} && |routes| == |old(routes)| + 1
      ensures ok ==> path !in old(Served()) && Served() == old(Served())[path := service]
      ensures ok ==> idToPath == old(idToPath)[id := path]
    {
      assert inner.Keys == Served().Keys;
      ghost var before := (routes, idToPath, pathToId);
      ok := Insert(path, id);
      if ok {
        LinkedOneMore(before.0, before.1, before.2, id, path, service);
        routes := routes[id := service];
      }
    }

    /** Takes over the routes of another router, in the order of their ids. */
    method Merge(other: Router) returns (ok: bool)
      requires Valid() && Lawful(matcher) && other.Valid() && other != this
      requires other.ids == ids
      modifies this`routes, this`inner, this`idToPath, this`pathToId, ids
      ensures ok == old(Mergeable(matcher, ids.counter, Served().Keys, other.idToPath))
      ensures ok ==> Valid() && ids.counter == old(ids.counter) + |old(other.routes)|
      ensures ok ==> Served() == old(Served()) + old(other.Served()) && |routes| == |old(routes)| + |old(other.routes)|
      ensures ok ==> old(Served()).Keys !! old(other.Served()).Keys
      ensures ok ==> Listing(idToPath) == old(Listing(idToPath)) + old(Listing(other.idToPath))
    {
      ghost var mine, theirs := Served(), other.Served();
      other.ServesItsTables();
      ok := MergeTables(other.routes, other.idToPath, theirs);
      if ok {
        ExtendedByAll(mine, theirs, Served());
      }
    }

    lemma ServesItsTables()
      requires Linked()
      ensures Describes(Served(), routes, idToPath)
    {
      forall p | p in Served() ensures p in idToPath.Values {
        assert idToPath[pathToId[p]] == p;
      }
    }

    method MergeTables(newRoutes: map<nat, Service>, newPaths: map<nat, string>, ghost theirs: Services)
      returns (ok: bool)
      requires Valid() && Lawful(matcher) && Describes(theirs, newRoutes, newPaths)
      modifies this`routes, this`inner, this`idToPath, this`pathToId, ids
      ensures ok == old(Mergeable(matcher, ids.counter, Served().Keys, newPaths))
      ensures ok ==> Valid() && ids.counter == old(ids.counter) + |newRoutes| && |routes| == |old(routes)| + |newRoutes|
      ensures ok ==> Extended(old(Served()), theirs, theirs.Keys, Served())
      ensures ok ==> Listing(idToPath) == old(Listing(idToPath)) + Listing(newPaths)
    {
      ghost var mine, now, count, first, done := Served(), Served(), |routes|, ids.counter, 0;
      ghost var listed, soFar: seq<string> := Listing(idToPath), [];
      var todo := newRoutes.Keys;
      ok := true;
      ListingAtEnds(newPaths, todo);
      MergingStarts(matcher, mine, theirs, newRoutes, newPaths);
      while ok && todo != {}
        invariant todo <= newRoutes.Keys
        invariant ok ==> Valid() && Served() == now
        invariant ok ==> ids.counter == first + done && |routes| == count + done && done + |todo| == |newRoutes|
        invariant ok ==> Merging(matcher, mine, theirs, newPaths, todo, now)
        invariant soFar == Listing(newPaths - todo)
        invariant ok ==> Listing(idToPath) == listed + soFar
        invariant !ok ==> !Mergeable(matcher, first, mine.Keys, newPaths)
        decreases todo
      {
        var id := Least(todo);
        // what merge takes for granted
        assert id in newPaths;
        FailureIsExcluded(matcher, first, mine.Keys, newRoutes, newPaths, done, todo, id);
        OneLess(todo, id);
        ListingTaken(newPaths, todo, id);
        Associates(listed, soFar, [newPaths[id]]);
        ok := TakeOver(newRoutes, newPaths, mine, theirs, todo, id, now);
        now, soFar := now[newPaths[id] := newRoutes[id]], soFar + [newPaths[id]];
        todo, done := todo - {id}, done + 1;
      }
      if ok {
        MergingEnds(matcher, first, mine, theirs, newRoutes, newPaths, now);
      }
    }

    /** One step of a merge: the route with the least id that is left. */
    method TakeOver(newRoutes: map<nat, Service>, newPaths: map<nat, string>, ghost mine: Services,
                    ghost theirs: Services, ghost todo: set<nat>, id: nat, ghost now: Services)
      returns (ok: bool)
      requires Valid() && Lawful(matcher) && Served() == now && Describes(theirs, newRoutes, newPaths)
      requires Merging(matcher, mine, theirs, newPaths, todo, now)
      requires id in newPaths && id in todo && forall j :: j in todo ==> id <= j
      modifies this`routes, this`inner, this`idToPath, this`pathToId, ids
      ensures ok == (MayTake(matcher, mine.Keys, newPaths, id) && old(ids.counter) < U32_MAX)
      ensures ok ==> Valid() && ids.counter == old(ids.counter) + 1 && |routes| == |old(routes)| + 1
      ensures ok ==> Served() == now[newPaths[id] := newRoutes[id]]
                     && Merging(matcher, mine, theirs, newPaths, todo - {id}, now[newPaths[id] := newRoutes[id]])
      ensures ok ==> Listing(idToPath) == old(Listing(idToPath)) + [newPaths[id]]
    {
      TakenBefore(matcher, mine, theirs, newPaths, todo, id, now);
      ok := Route(newPaths[id], newRoutes[id]);
      if ok {
        MergingOneMore(matcher, mine, theirs, newRoutes, newPaths, todo, id, now);
      }
    }

    /** Wraps every service registered so far. */
    method RouteLayer(layer: Service -> Service)
      requires Valid()
      modifies this`routes
      ensures Valid() && Served() == Layered(layer, old(Served())) && |routes| == |old(routes)|
      ensures Served().Keys == old(Served()).Keys
      ensures forall p :: p in Served() ==> Served()[p] == layer(old(Served())[p])
    {
      ghost var before := routes;
      routes := map id | id in routes :: layer(routes[id]);
      SameSize(before, idToPath);
      SameSize(routes, idToPath);
    }

    /** The service of the selected path. None is the fallback, which answers NotFound. The
        code expects a route for every id it finds. */
    method Call(path: string) returns (service: Option<Service>)
      requires Valid() && Lawful(matcher)
      ensures match matcher.select(Served().Keys, path)
              case Some(p) => p in Served() && service == Some(Served()[p])
              case None => service == None
    {
      assert inner.Keys == Served().Keys;
      match matcher.select(inner.Keys, path) {
        case Some(p) =>
          var id := inner[p];
          assert id in routes;
          service := Some(routes[id]);
        case None =>
          service := None;
      }
    }
  }

  method Least(s: set<nat>) returns (least: nat)
    requires s != {}
    ensures least in s && forall j :: j in s ==> least <= j
  {
    var todo := s;
    least :| least in s;
    while todo != {}
      invariant todo <= s && least in s
      invariant forall j :: j in s && j !in todo ==> least <= j
      decreases todo
    {
      var j :| j in todo;
      if j < least {
        least := j;
      }
      todo := todo - {j};
    }
  }

  /** Two tables, linked by route id, that serve exactly this. */
  ghost predicate Describes(services: Services, routes: map<nat, Service>, idToPath: map<nat, string>) {
    && routes.Keys == idToPath.Keys
    && (forall id :: id in idToPath ==> idToPath[id] in services && services[idToPath[id]] == routes[id])
    && services.Keys <= idToPath.Values
    && (forall i, j :: i in idToPath && j in idToPath && i != j ==> idToPath[i] != idToPath[j])
  }

  /** The paths of the ids below this one, which a merge takes over earlier. */
  ghost function Before(idToPath: map<nat, string>, id: nat): set<string> {
    set j | j in idToPath && j < id :: idToPath[j]
  }

  ghost predicate MayTake(m: Matcher, mine: set<string>, idToPath: map<nat, string>, id: nat)
    requires id in idToPath
  {
    Fits(m, mine + Before(idToPath, id), idToPath[id])
  }

  /** The condition under which a merge succeeds: there are route ids left, and each path,
      in the order of the ids, is free of conflicts with what is there by then. */
  ghost predicate Mergeable(m: Matcher, counter: nat, mine: set<string>, idToPath: map<nat, string>) {
    && counter + |idToPath| <= U32_MAX
    && AllMayBeTaken(m, mine, idToPath)
  }

  /** Paths that are in harmony can be merged whatever their ids are. */
  lemma HarmonyIsMergeable(m: Matcher, counter: nat, mine: set<string>, theirs: Services, routes: map<nat, Service>,
                           idToPath: map<nat, string>)
    requires Describes(theirs, routes, idToPath) && mine !! theirs.Keys && Harmonious(m, mine + theirs.Keys)
    requires counter + |routes| <= U32_MAX
    ensures Mergeable(m, counter, mine, idToPath)
  {
    SameSize(routes, idToPath);
    forall id | id in idToPath ensures MayTake(m, mine, idToPath, id) {
      assert idToPath[id] !in mine + Before(idToPath, id);
      assert mine + Before(idToPath, id) <= mine + theirs.Keys;
    }
  }

  lemma SameSize(routes: map<nat, Service>, idToPath: map<nat, string>)
    requires routes.Keys == idToPath.Keys
    ensures |routes| == |idToPath|
  {
    assert |routes| == |routes.Keys| && |idToPath| == |idToPath.Keys|;
  }

  /** The paths of all ids but those in `todo`. */
  ghost function Taken(idToPath: map<nat, string>, todo: set<nat>): set<string> {
    set id | id in idToPath && id !in todo :: idToPath[id]
  }

  /** In the middle of a merge, with the routes in `todo` still to be taken over. */
  ghost predicate Merging(m: Matcher, mine: Services, theirs: Services, idToPath: map<nat, string>, todo: set<nat>,
                          now: Services)
  {
    && (forall i, j :: i in idToPath && i !in todo && j in todo ==> i < j)
    && (forall id :: id in idToPath && id !in todo ==> MayTake(m, mine.Keys, idToPath, id))
    && Extended(mine, theirs, Taken(idToPath, todo), now)
  }

  lemma MergingStarts(m: Matcher, mine: Services, theirs: Services, routes: map<nat, Service>,
                      idToPath: map<nat, string>)
    requires routes.Keys == idToPath.Keys
    ensures Merging(m, mine, theirs, idToPath, routes.Keys, mine)
  {
    assert Taken(idToPath, routes.Keys) == {};
  }

  lemma TakenBefore(m: Matcher, mine: Services, theirs: Services, idToPath: map<nat, string>, todo: set<nat>, id: nat,
                    now: Services)
    requires Merging(m, mine, theirs, idToPath, todo, now)
    requires id in todo && forall j :: j in todo ==> id <= j
    ensures now.Keys == mine.Keys + Before(idToPath, id)
  {
    assert forall i :: i in idToPath ==> (i !in todo <==> i < id);
    assert Taken(idToPath, todo) == Before(idToPath, id);
  }

  /** Whatever makes the next step of a merge fail excludes the merge. */
  lemma FailureIsExcluded(m: Matcher, counter: nat, mine: set<string>, routes: map<nat, Service>,
                          idToPath: map<nat, string>, done: nat, todo: set<nat>, id: nat)
    requires routes.Keys == idToPath.Keys && id in idToPath && id in todo && done + |todo| == |routes|
    ensures Mergeable(m, counter, mine, idToPath) ==> MayTake(m, mine, idToPath, id) && counter + done < U32_MAX
  {
    SameSize(routes, idToPath);
    assert |todo| > 0;
  }

  lemma OneLess<T>(s: set<T>, x: T)
    requires x in s
    ensures |s - {x}| == |s| - 1
  {
  }

  lemma MergingOneMore(m: Matcher, mine: Services, theirs: Services, routes: map<nat, Service>,
                       idToPath: map<nat, string>, todo: set<nat>, id: nat, now: Services)
    requires Describes(theirs, routes, idToPath) && Merging(m, mine, theirs, idToPath, todo, now)
    requires id in todo && (forall j :: j in todo ==> id <= j)
    requires id in idToPath && idToPath[id] !in now && MayTake(m, mine.Keys, idToPath, id)
    ensures Merging(m, mine, theirs, idToPath, todo - {id}, now[idToPath[id] := routes[id]])
  {
    TakenOneMore(idToPath, todo, id);
    ExtendedOneMore(mine, theirs, Taken(idToPath, todo), now, idToPath[id], routes[id]);
    LeastComesNext(idToPath, todo, id);
  }

  lemma LeastComesNext(idToPath: map<nat, string>, todo: set<nat>, id: nat)
    requires forall i, j :: i in idToPath && i !in todo && j in todo ==> i < j
    requires id in todo && (forall j :: j in todo ==> id <= j)
    ensures forall i, j :: i in idToPath && i !in todo - {id} && j in todo - {id} ==> i < j
  {
  }

  lemma TakenOneMore(idToPath: map<nat, string>, todo: set<nat>, id: nat)
    requires id in todo && id in idToPath
    ensures Taken(idToPath, todo - {id}) == Taken(idToPath, todo) + {idToPath[id]}
  {
    var more := Taken(idToPath, todo - {id});
    forall p ensures p in more <==> p in Taken(idToPath, todo) || p == idToPath[id] {
      if p in Taken(idToPath, todo) {
        var i :| i in idToPath && i !in todo && idToPath[i] == p;
        assert i !in todo - {id};
      }
      assert id !in todo - {id};
    }
  }

  lemma MergingEnds(m: Matcher, counter: nat, mine: Services, theirs: Services, routes: map<nat, Service>,
                    idToPath: map<nat, string>, now: Services)
    requires Describes(theirs, routes, idToPath) && Merging(m, mine, theirs, idToPath, {}, now)
    ensures Extended(mine, theirs, theirs.Keys, now)
    ensures counter + |routes| <= U32_MAX ==> Mergeable(m, counter, mine.Keys, idToPath)
  {
    SameSize(routes, idToPath);
    AllTaken(theirs, routes, idToPath);
  }

  lemma AllTaken(services: Services, routes: map<nat, Service>, idToPath: map<nat, string>)
    requires Describes(services, routes, idToPath)
    ensures Taken(idToPath, {}) == services.Keys
  {
    forall p | p in services ensures p in Taken(idToPath, {}) {
      assert p in idToPath.Values;
    }
  }

  lemma ExtendedOneMore(mine: Services, theirs: Services, taken: set<string>, now: Services, path: string,
                        service: Service)
    requires Extended(mine, theirs, taken, now) && path !in now
    requires path in theirs && theirs[path] == service
    ensures Extended(mine, theirs, taken + {path}, now[path := service])
  {
  }

  function Layered(layer: Service -> Service, services: Services): Services {
    map p | p in services :: layer(services[p])
  }

  /** `now` holds `mine` and, of `theirs`, the paths taken so far. */
  ghost predicate Extended(mine: Services, theirs: Services, taken: set<string>, now: Services) {
    && now.Keys == mine.Keys + taken && mine.Keys !! taken && taken <= theirs.Keys
    && (forall p :: p in mine ==> now[p] == mine[p])
    && (forall p :: p in taken ==> now[p] == theirs[p])
  }

  lemma ExtendedByAll(mine: Services, theirs: Services, now: Services)
    requires Extended(mine, theirs, theirs.Keys, now)
    ensures now == mine + theirs && mine.Keys !! theirs.Keys
  {
  }

  // ------------------------------------------------------ paths in order of ids

  ghost function Greatest(s: set<nat>): (g: nat)
    requires s != {}
    ensures g in s && forall j :: j in s ==> j <= g
  {
    var x :| x in s;
    if s == {x} then x
    else
      var y := Greatest(s - {x});
      assert forall j :: j in s ==> j == x || j in s - {x};
      if x < y then y else x
  }

  ghost function Listing(idToPath: map<nat, string>): seq<string>
    decreases idToPath.Keys
  {
    if idToPath == map[] then []
    else
      var id := Greatest(idToPath.Keys);
      assert idToPath.Keys - {id} < idToPath.Keys;
      Listing(idToPath - {id}) + [idToPath[id]]
  }

  lemma ListingOneMore(idToPath: map<nat, string>, id: nat, path: string)
    requires forall j :: j in idToPath ==> j < id
    ensures Listing(idToPath[id := path]) == Listing(idToPath) + [path]
  {
    var more := idToPath[id := path];
    assert id in more && Greatest(more.Keys) == id;
    RemoveUndoesInsert(idToPath, id, path);
  }

  lemma RemoveUndoesInsert(idToPath: map<nat, string>, id: nat, path: string)
    requires id !in idToPath
    ensures idToPath[id := path] - {id} == idToPath
  {
    var less := idToPath[id := path] - {id};
    assert less.Keys == idToPath.Keys;
    assert forall j :: j in idToPath ==> less[j] == idToPath[j];
  }

  lemma Associates(a: seq<string>, b: seq<string>, c: seq<string>)
    ensures a + b + c == a + (b + c)
  {
  }

  /** A merge takes the paths over in the order of the listing. */
  lemma ListingTaken(idToPath: map<nat, string>, todo: set<nat>, id: nat)
    requires forall i, j :: i in idToPath && i !in todo && j in todo ==> i < j
    requires id in todo && id in idToPath
    ensures Listing(idToPath - (todo - {id})) == Listing(idToPath - todo) + [idToPath[id]]
  {
    var taken := idToPath - todo;
    forall j ensures j in idToPath - (todo - {id}) <==> j in taken || j == id {}
    assert idToPath - (todo - {id}) == taken[id := idToPath[id]];
    ListingOneMore(taken, id, idToPath[id]);
  }

  lemma ListingAtEnds(idToPath: map<nat, string>, todo: set<nat>)
    requires todo == idToPath.Keys
    ensures Listing(idToPath - todo) == [] && Listing(idToPath - {}) == Listing(idToPath)
  {
    assert idToPath - todo == map[] && idToPath - {} == idToPath;
  }

  function Elements(paths: seq<string>): set<string> {
    set p | p in paths
  }

  /** Each path can be inserted once those before it have been. */
  ghost predicate InOrder(m: Matcher, mine: set<string>, paths: seq<string>) {
    forall i :: 0 <= i < |paths| ==> Fits(m, mine + Elements(paths[..i]), paths[i])
  }

  ghost predicate Fits(m: Matcher, present: set<string>, path: string) {
    Absolute(path) && !m.conflicts(present, path)
  }

  lemma InOrderOneMore(m: Matcher, mine: set<string>, paths: seq<string>, path: string)
    ensures InOrder(m, mine, paths + [path]) <==> InOrder(m, mine, paths) && Fits(m, mine + Elements(paths), path)
  {
    var more := paths + [path];
    forall i | 0 <= i < |paths| ensures more[..i] == paths[..i] && more[i] == paths[i] {}
    assert more[..|paths|] == paths && more[|paths|] == path;
  }

  ghost predicate AllMayBeTaken(m: Matcher, mine: set<string>, idToPath: map<nat, string>) {
    forall id :: id in idToPath ==> MayTake(m, mine, idToPath, id)
  }

  lemma BeforeGreatest(idToPath: map<nat, string>, g: nat)
    requires g in idToPath && forall j :: j in idToPath ==> j <= g
    ensures Before(idToPath, g) == (idToPath - {g}).Values
  {
    var rest := idToPath - {g};
    forall p | p in rest.Values ensures p in Before(idToPath, g) {
      var id :| id in rest && rest[id] == p;
      assert id in idToPath && id < g;
    }
    forall p | p in Before(idToPath, g) ensures p in rest.Values {
      var id :| id in idToPath && id < g && idToPath[id] == p;
      assert id in rest && rest[id] == p;
    }
  }

  lemma BeforeOthers(idToPath: map<nat, string>, g: nat, id: nat)
    requires id < g
    ensures Before(idToPath - {g}, id) == Before(idToPath, id)
  {
    var rest := idToPath - {g};
    forall p | p in Before(idToPath, id) ensures p in Before(rest, id) {
      var j :| j in idToPath && j < id && idToPath[j] == p;
      assert j in rest;
    }
  }

  lemma WithoutGreatest(m: Matcher, mine: set<string>, idToPath: map<nat, string>, g: nat)
    requires g in idToPath && forall j :: j in idToPath ==> j <= g
    ensures AllMayBeTaken(m, mine, idToPath) <==>
            AllMayBeTaken(m, mine, idToPath - {g}) && MayTake(m, mine, idToPath, g)
  {
    var rest := idToPath - {g};
    forall id | id in rest ensures MayTake(m, mine, rest, id) <==> MayTake(m, mine, idToPath, id) {
      BeforeOthers(idToPath, g, id);
    }
    forall id | id in idToPath ensures id == g || id in rest {}
  }

  lemma {:induction false} ListingIsComplete(idToPath: map<nat, string>)
    ensures Elements(Listing(idToPath)) == idToPath.Values
    decreases idToPath.Keys
  {
    if idToPath == map[] {
    } else {
      var g := Greatest(idToPath.Keys);
      var rest := idToPath - {g};
      ListingIsComplete(rest);
      assert idToPath == rest[g := idToPath[g]];
      ValuesOneMore(rest, g, idToPath[g]);
      ElementsOneMore(Listing(rest), idToPath[g]);
    }
  }

  lemma ValuesOneMore(idToPath: map<nat, string>, id: nat, path: string)
    requires id !in idToPath
    ensures idToPath[id := path].Values == idToPath.Values + {path}
  {
    var more := idToPath[id := path];
    forall p | p in idToPath.Values ensures p in more.Values {
      var j :| j in idToPath && idToPath[j] == p;
      assert more[j] == p;
    }
    assert more[id] == path;
  }

  lemma ElementsOneMore(paths: seq<string>, path: string)
    ensures Elements(paths + [path]) == Elements(paths) + {path}
  {
  }

  /** What a merge demands of the ids, said of the listing. */
  lemma {:induction false} TakenInOrder(m: Matcher, mine: set<string>, idToPath: map<nat, string>)
    ensures AllMayBeTaken(m, mine, idToPath) <==> InOrder(m, mine, Listing(idToPath))
    decreases idToPath.Keys
  {
    if idToPath == map[] {
    } else {
      var g := Greatest(idToPath.Keys);
      var rest := idToPath - {g};
      TakenInOrder(m, mine, rest);
      WithoutGreatest(m, mine, idToPath, g);
      BeforeGreatest(idToPath, g);
      ListingIsComplete(rest);
      InOrderOneMore(m, mine, Listing(rest), idToPath[g]);
    }
  }
}
