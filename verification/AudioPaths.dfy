/**
 The audio path arbiter: routes between audio sources and sinks compete by priority; a route
 that loses is suspended and comes back when those that displaced it are gone.
 */
module AudioPaths {

  /** A connection and its priority; -1 marks an invalid field. */
  datatype Path = Path(source: int, sink: int, priority: int) {
    predicate IsValid() {
      source != -1 && sink != -1 && priority != -1
    }

    predicate IsCompatible(other: Path, platform: Platform) {
      IsValid() && other.IsValid() && platform(source, sink, other.source, other.sink)
    }
  }

  /** The platform's table of connections that may be open together: source and sink of each. */
  type Platform = (int, int, int, int) -> bool

  datatype Route = Route(path: Path, suspendList: set<int>, suspendedBy: set<int>) {
    predicate IsActive() {
      suspendedBy == {}
    }
  }

  datatype Status = Closed | Open | Suspended

  /** What the arbiter tells the hardware to do with the connection of a route. */
  datatype Call = Connect | Disconnect

  /** What the hardware is told: only the two ends of a connection. */
  type Connection = (int, int)

  function Ends(p: Path): Connection {
    (p.source, p.sink)
  }

  /** The connections of some routes. */
  function EndsOf(routes: map<int, Route>, ids: set<int>): set<Connection> {
    set id | id in ids && id in routes :: Ends(routes[id].path)
  }

  /**
   The arbiter's variables, for every route it ever made the calls in order, and the connections
   that the hardware has after all calls.
   */
  datatype State = State(routes: map<int, Route>, active: set<int>, counter: int, calls: map<int, seq<Call>>,
                         connected: set<Connection>)

  const INITIAL := State(map[], {}, 1, map[], {})

  // ---------------------------------------------------------------- what each operation does

  predicate Conflict(platform: Platform, p: Path, q: Path) {
    !p.IsCompatible(q, platform)
  }

  /** The active routes a new path cannot coexist with. */
  function Conflicting(platform: Platform, s: State, path: Path): set<int>
    requires s.active <= s.routes.Keys
  {
    set id | id in s.active && Conflict(platform, path, s.routes[id].path)
  }

  /** A request fails if the path is invalid or loses against an active route of no lower priority. */
  predicate Refused(platform: Platform, s: State, path: Path)
    requires s.active <= s.routes.Keys
  {
    !path.IsValid() ||
    exists id | id in Conflicting(platform, s, path) :: s.routes[id].path.priority >= path.priority
  }

  function AfterRequest(platform: Platform, s: State, path: Path): State
    requires s.active <= s.routes.Keys && s.active <= s.calls.Keys
  {
    if Refused(platform, s, path) then s
    else
      var losers := Conflicting(platform, s, path);
      var routes := map id | id in s.routes :: if id in losers then Displaced(s.routes[id], s.counter) else s.routes[id];
      var calls := map id | id in s.calls :: if id in losers then s.calls[id] + [Disconnect] else s.calls[id];
      State(routes[s.counter := Route(path, losers, {})], s.active - losers + {s.counter}, s.counter + 1,
            calls[s.counter := [Connect]], s.connected - EndsOf(s.routes, losers) + {Ends(path)})
  }

  function Displaced(r: Route, winner: int): Route {
    r.(suspendedBy := r.suspendedBy + {winner})
  }

  /** The routes that resume when route id goes: only it stood in their way. */
  function Resumed(s: State, id: int): set<int>
    requires id in s.routes && s.routes[id].suspendList <= s.routes.Keys
  {
    set i | i in s.routes[id].suspendList && s.routes[id].IsActive() && s.routes[i].suspendedBy - {id} == {}
  }

  /** Route i after route id is gone: whoever suspended id now suspends what id suspended. */
  function Relinked(s: State, id: int, i: int): Route
    requires id in s.routes && i in s.routes
  {
    var gone, r := s.routes[id], s.routes[i];
    Route(r.path,
          if i in gone.suspendedBy then r.suspendList - {id} + gone.suspendList else r.suspendList,
          if i in gone.suspendList then r.suspendedBy - {id} + gone.suspendedBy else r.suspendedBy)
  }

  function AfterRelease(s: State, id: int): State
    requires id in s.routes ==> s.routes[id].suspendList <= s.routes.Keys
  {
    if id !in s.routes then s
    else
      State(
        map i | i in s.routes && i != id :: Relinked(s, id, i),
        s.active - {id} + Resumed(s, id),
        s.counter,
        map i | i in s.calls ::
          if i == id && s.routes[id].IsActive() then s.calls[i] + [Disconnect]
          else if i != id && i in Resumed(s, id) then s.calls[i] + [Connect]
          else s.calls[i],
        s.connected - (if s.routes[id].IsActive() then {Ends(s.routes[id].path)} else {})
          + EndsOf(s.routes, Resumed(s, id)))
  }

  function StatusOf(s: State, id: int): Status {
    if id !in s.routes then Closed else if s.routes[id].IsActive() then Open else Suspended
  }

  // ---------------------------------------------------------------- the invariant

  /** The calls for one route: it is connected first and then alternately disconnected and connected. */
  predicate Alternates(calls: seq<Call>) {
    |calls| > 0 && forall i | 0 <= i < |calls| :: calls[i] == if i % 2 == 0 then Connect else Disconnect
  }

  predicate LastIsConnect(calls: seq<Call>) {
    |calls| > 0 && calls[|calls| - 1] == Connect
  }

  /** Routes refer only to live routes with valid paths, and every id was handed out earlier. */
  ghost predicate WellShaped(s: State) {
    && 1 <= s.counter && s.active <= s.routes.Keys <= s.calls.Keys
    && (forall a | a in s.calls :: 1 <= a < s.counter)
    && (forall a | a in s.routes ::
          && s.routes[a].path.IsValid()
          && s.routes[a].suspendList <= s.routes.Keys && s.routes[a].suspendedBy <= s.routes.Keys)
  }

  /** b has suspended a. */
  predicate Suspends(s: State, b: int, a: int) {
    a in s.routes && b in s.routes[a].suspendedBy
  }

  /** The two directions of the suspend graph agree. */
  ghost predicate Mirrored(s: State) {
    forall a, b | a in s.routes && b in s.routes :: Suspends(s, b, a) <==> a in s.routes[b].suspendList
  }

  /** Suspension goes from younger to older and from strictly higher to lower priority. */
  ghost predicate Ordered(s: State) {
    forall a, b | a in s.routes && b in s.routes && Suspends(s, b, a) ::
      a < b && s.routes[a].path.priority < s.routes[b].path.priority
  }

  /** The active routes are exactly those nobody suspends. */
  ghost predicate ActiveExactly(s: State) {
    forall a | a in s.routes :: a in s.active <==> s.routes[a].IsActive()
  }

  /** The calls for a route alternate, and the last one is to connect exactly if the route is active. */
  ghost predicate Traced(s: State) {
    forall a | a in s.calls :: Alternates(s.calls[a]) && (LastIsConnect(s.calls[a]) <==> a in s.active)
  }

  ghost predicate Inv(s: State) {
    WellShaped(s) && Mirrored(s) && Ordered(s) && ActiveExactly(s) && Traced(s)
  }

  lemma AlternatesLonger(calls: seq<Call>, call: Call)
    requires Alternates(calls) && (call == Connect <==> !LastIsConnect(calls))
    ensures Alternates(calls + [call]) && (LastIsConnect(calls + [call]) <==> call == Connect)
  {
    var n := |calls|;
    assert calls[n - 1] == if (n - 1) % 2 == 0 then Connect else Disconnect;
    assert (n - 1) % 2 == 0 <==> n % 2 != 0;
  }

  lemma RequestKeepsShape(platform: Platform, s: State, path: Path)
    requires Inv(s) && !Refused(platform, s, path)
    ensures WellShaped(AfterRequest(platform, s, path)) && ActiveExactly(AfterRequest(platform, s, path))
  {
    hide Conflict, Alternates, LastIsConnect;
    var t, n := AfterRequest(platform, s, path), s.counter;
    assert n !in s.routes && n !in s.calls;
    assert t.routes.Keys == s.routes.Keys + {n} && t.calls.Keys == s.calls.Keys + {n};
    forall a | a in t.routes
      ensures t.routes[a].path.IsValid() && (a in t.active <==> t.routes[a].IsActive())
      ensures t.routes[a].suspendList <= t.routes.Keys && t.routes[a].suspendedBy <= t.routes.Keys
    {
      if a in Conflicting(platform, s, path) {
        assert n in t.routes[a].suspendedBy;
      }
    }
  }

  lemma RequestKeepsGraph(platform: Platform, s: State, path: Path)
    requires Inv(s) && !Refused(platform, s, path)
    ensures Mirrored(AfterRequest(platform, s, path)) && Ordered(AfterRequest(platform, s, path))
  {
    hide Conflict, Alternates, LastIsConnect;
    var t, n := AfterRequest(platform, s, path), s.counter;
    assert n !in s.routes;
    forall a, b | a in t.routes && b in t.routes
      ensures Suspends(t, b, a) <==> a in t.routes[b].suspendList
      ensures Suspends(t, b, a) ==> a < b && t.routes[a].path.priority < t.routes[b].path.priority
    {
      if a != n && b != n {
        assert Suspends(t, b, a) <==> Suspends(s, b, a);
      }
    }
  }

  lemma RequestKeepsInv(platform: Platform, s: State, path: Path)
    requires Inv(s)
    ensures Inv(AfterRequest(platform, s, path))
  {
    if !Refused(platform, s, path) {
      RequestKeepsShape(platform, s, path);
      RequestKeepsGraph(platform, s, path);
      RequestKeepsTraces(platform, s, path);
    }
  }

  lemma RequestKeepsTraces(platform: Platform, s: State, path: Path)
    requires Inv(s) && !Refused(platform, s, path)
    ensures Traced(AfterRequest(platform, s, path))
  {
    var t := AfterRequest(platform, s, path);
    forall a | a in t.calls
      ensures Alternates(t.calls[a]) && (LastIsConnect(t.calls[a]) <==> a in t.active)
    {
      if a in Conflicting(platform, s, path) {
        hide Alternates, LastIsConnect;
        AlternatesLonger(s.calls[a], Disconnect);
      }
    }
  }

  lemma ReleaseKeepsInv(s: State, id: int)
    requires Inv(s)
    ensures Inv(AfterRelease(s, id))
  {
    if id in s.routes {
      ReleaseKeepsShape(s, id);
      ReleaseKeepsGraph(s, id);
      ReleaseKeepsActive(s, id);
      ReleaseKeepsTraces(s, id);
    }
  }

  lemma ReleaseKeepsShape(s: State, id: int)
    requires Inv(s) && id in s.routes
    ensures WellShaped(AfterRelease(s, id))
  {
    hide Alternates, LastIsConnect;
    var t := AfterRelease(s, id);
    assert t.routes.Keys == s.routes.Keys - {id};
    forall a | a in t.routes
      ensures t.routes[a].suspendList <= t.routes.Keys && t.routes[a].suspendedBy <= t.routes.Keys
    {
      assert Suspends(s, id, a) <==> a in s.routes[id].suspendList;
      assert Suspends(s, a, id) <==> id in s.routes[a].suspendList;
      assert !Suspends(s, id, id);
    }
  }

  /** Who suspends whom once route id is gone. */
  lemma SuspendsAfterRelease(s: State, id: int, a: int, b: int)
    requires Inv(s) && id in s.routes && a in s.routes && b in s.routes && a != id && b != id
    ensures Suspends(AfterRelease(s, id), b, a) <==> Suspends(s, b, a) || (Suspends(s, id, a) && Suspends(s, b, id))
    ensures a in AfterRelease(s, id).routes[b].suspendList
            <==> a in s.routes[b].suspendList || (Suspends(s, id, a) && Suspends(s, b, id))
  {
    hide Alternates, LastIsConnect, Resumed;
    assert Suspends(s, id, a) <==> a in s.routes[id].suspendList;
    assert Suspends(s, b, id) <==> id in s.routes[b].suspendList;
  }

  lemma ReleaseKeepsGraph(s: State, id: int)
    requires Inv(s) && id in s.routes
    ensures Mirrored(AfterRelease(s, id)) && Ordered(AfterRelease(s, id))
  {
    hide Alternates, LastIsConnect, Resumed;
    var t := AfterRelease(s, id);
    forall a, b | a in t.routes && b in t.routes
      ensures Suspends(t, b, a) <==> a in t.routes[b].suspendList
      ensures Suspends(t, b, a) ==> a < b && t.routes[a].path.priority < t.routes[b].path.priority
    {
      SuspendsAfterRelease(s, id, a, b);
    }
  }

  lemma ReleaseKeepsActive(s: State, id: int)
    requires Inv(s) && id in s.routes
    ensures ActiveExactly(AfterRelease(s, id))
  {
    hide Alternates, LastIsConnect;
    var t := AfterRelease(s, id);
    forall a | a in t.routes
      ensures a in t.active <==> t.routes[a].IsActive()
    {
      assert Suspends(s, id, a) <==> a in s.routes[id].suspendList;
      assert Mirrored(s) && Ordered(s);
      if b :| b in s.routes[id].suspendedBy && a in s.routes[id].suspendList {
        assert Suspends(s, b, id);
        assert b in t.routes[a].suspendedBy;
      }
    }
  }

  lemma ReleaseKeepsTraces(s: State, id: int)
    requires Inv(s) && id in s.routes
    ensures Traced(AfterRelease(s, id))
  {
    var t := AfterRelease(s, id);
    forall a | a in t.calls
      ensures Alternates(t.calls[a]) && (LastIsConnect(t.calls[a]) <==> a in t.active)
    {
      hide Alternates, LastIsConnect;
      assert !Suspends(s, id, id);
      assert Suspends(s, id, a) <==> a in s.routes[id].suspendList;
      if a == id && s.routes[id].IsActive() {
        AlternatesLonger(s.calls[a], Disconnect);
      } else if a != id && a in Resumed(s, id) {
        assert id in s.routes[a].suspendedBy;
        AlternatesLonger(s.calls[a], Connect);
      }
    }
  }

  // ---------------------------------------------------------------- runs

  datatype Op = Request(path: Path) | Release(id: int)

  function Apply(platform: Platform, s: State, op: Op): (t: State)
    requires Inv(s)
    ensures Inv(t)
  {
    match op
    case Request(path) =>
      RequestKeepsInv(platform, s, path);
      AfterRequest(platform, s, path)
    case Release(id) =>
      ReleaseKeepsInv(s, id);
      AfterRelease(s, id)
  }

  /** The state after a run of operations. */
  function RunFrom(platform: Platform, s: State, ops: seq<Op>): (t: State)
    requires Inv(s)
    ensures Inv(t)
    decreases |ops|
  {
    if |ops| == 0 then s else RunFrom(platform, Apply(platform, s, ops[0]), ops[1..])
  }

  function Run(platform: Platform, ops: seq<Op>): (t: State)
    ensures Inv(t)
  {
    RunFrom(platform, INITIAL, ops)
  }

  // ---------------------------------------------------------------- what a suspended route waits for

  /** A chain of suspensions that starts at a and climbs to an active route. */
  ghost predicate ClimbsToActive(s: State, chain: seq<int>, a: int) {
    && |chain| > 1 && chain[0] == a
    && (forall i | 0 <= i < |chain| - 1 :: Suspends(s, chain[i + 1], chain[i]))
    && chain[|chain| - 1] in s.active
  }

  lemma SomeElement<T>(s: set<T>) returns (x: T)
    requires s != {}
    ensures x in s
  {
    x :| x in s;
  }

  /** Above every suspended route there is an active one of strictly higher priority. */
  lemma {:induction false} SuspendedHasActiveAbove(s: State, a: int) returns (chain: seq<int>)
    requires Inv(s) && a in s.routes && a !in s.active
    ensures ClimbsToActive(s, chain, a)
    ensures forall i | 0 <= i < |chain| :: chain[i] in s.routes
    ensures s.routes[chain[|chain| - 1]].path.priority > s.routes[a].path.priority
    decreases s.counter - a
  {
    hide Alternates, LastIsConnect;
    assert !s.routes[a].IsActive();
    var b := SomeElement(s.routes[a].suspendedBy);
    assert Suspends(s, b, a);
    if b in s.active {
      chain := [a, b];
    } else {
      var rest := SuspendedHasActiveAbove(s, b);
      chain := [a] + rest;
    }
  }

  function ReleaseAll(ids: seq<int>): (ops: seq<Op>)
    ensures |ops| == |ids|
  {
    seq(|ids|, i requires 0 <= i < |ids| => Release(ids[i]))
  }

  lemma {:induction false} ReleasesLeaveRest(platform: Platform, s: State, ids: seq<int>)
    requires Inv(s)
    ensures forall a :: a in RunFrom(platform, s, ReleaseAll(ids)).routes <==> a in s.routes && a !in ids
    decreases |ids|
  {
    hide Inv, Relinked, Resumed;
    if |ids| > 0 {
      var t := Apply(platform, s, Release(ids[0]));
      assert ReleaseAll(ids)[1..] == ReleaseAll(ids[1..]);
      ReleasesLeaveRest(platform, t, ids[1..]);
      ReleaseRemoves(platform, s, ids[0]);
      assert ids == [ids[0]] + ids[1..];
    }
  }

  lemma ReleaseRemoves(platform: Platform, s: State, id: int)
    requires Inv(s)
    ensures Apply(platform, s, Release(id)).routes.Keys == s.routes.Keys - {id}
  {
    hide Relinked, Resumed;
  }

  /** A route alone is open. */
  lemma LoneRouteIsOpen(s: State, a: int)
    requires Inv(s) && s.routes.Keys == {a}
    ensures StatusOf(s, a) == Open && s.active == {a} && LastIsConnect(s.calls[a])
  {
    hide Alternates, LastIsConnect;
    assert !Suspends(s, a, a);
    assert s.routes[a].suspendedBy <= {a};
    assert s.routes[a].suspendedBy == {};
  }

  /** When all other routes have been released, in whatever order, the remaining one is open; its last call was to connect. */
  lemma LastRouteIsOpen(platform: Platform, s: State, ids: seq<int>, a: int)
    requires Inv(s) && a in s.routes && a !in ids
    requires forall b | b in s.routes && b != a :: b in ids
    ensures var t := RunFrom(platform, s, ReleaseAll(ids));
            StatusOf(t, a) == Open && t.active == {a} && a in t.calls && LastIsConnect(t.calls[a])
  {
    hide LastIsConnect, Apply, RunFrom, Inv, StatusOf;
    var t := RunFrom(platform, s, ReleaseAll(ids));
    ReleasesLeaveRest(platform, s, ids);
    forall b
      ensures b in t.routes.Keys <==> b in {a}
    {
      assert b in t.routes <==> b in s.routes && b !in ids;
    }
    assert t.routes.Keys == {a};
    InvHasCalls(t, a);
    LoneRouteIsOpen(t, a);
  }

  lemma InvHasCalls(s: State, a: int)
    requires Inv(s) && a in s.routes
    ensures a in s.calls
  {
    hide Alternates, LastIsConnect;
  }

  // ---------------------------------------------------------------- what callers can ask for

  /** The paths that the enumerations of sources, sinks and priorities can name. */
  predicate Nameable(p: Path) {
    0 <= p.source < 3 && 0 <= p.sink < 3 && 1 <= p.priority <= 4
  }

  ghost predicate AllNameable(s: State) {
    forall id | id in s.routes :: Nameable(s.routes[id].path)
  }

  /** A run whose requests name such paths. */
  ghost predicate Genuine(ops: seq<Op>) {
    forall i | 0 <= i < |ops| :: ops[i].Request? ==> Nameable(ops[i].path)
  }

  // What the platform's table may or may not be.

  ghost predicate ConflictIsReflexive(platform: Platform) {
    forall p | Nameable(p) :: Conflict(platform, p, p)
  }

  ghost predicate ConflictIsSymmetric(platform: Platform) {
    forall p, q | Nameable(p) && Nameable(q) :: Conflict(platform, p, q) ==> Conflict(platform, q, p)
  }

  /** What conflicts with a connection that conflicts with another conflicts with that one too. */
  ghost predicate ConflictIsTransitive(platform: Platform) {
    forall p, q, r | Nameable(p) && Nameable(q) && Nameable(r) ::
      Conflict(platform, p, q) && Conflict(platform, q, r) ==> Conflict(platform, p, r)
  }

  // ---------------------------------------------------------------- compatibility of the active routes

  /** Any two active routes may be open together. */
  ghost predicate PairwiseCompatible(platform: Platform, s: State)
    requires s.active <= s.routes.Keys
  {
    forall a, b | a in s.active && b in s.active && a != b ::
      s.routes[a].path.IsCompatible(s.routes[b].path, platform)
  }

  /** A request never opens a route next to an incompatible one. */
  lemma RequestKeepsCompatible(platform: Platform, s: State, path: Path)
    requires Inv(s) && AllNameable(s) && Nameable(path) && ConflictIsSymmetric(platform)
    requires PairwiseCompatible(platform, s)
    ensures Inv(AfterRequest(platform, s, path)) && PairwiseCompatible(platform, AfterRequest(platform, s, path))
  {
    hide Alternates, LastIsConnect;
    RequestKeepsInv(platform, s, path);
    var t := AfterRequest(platform, s, path);
    forall a, b | a in t.active && b in t.active && a != b
      ensures t.routes[a].path.IsCompatible(t.routes[b].path, platform)
    {
      if a != s.counter && b != s.counter {
        assert a in s.active && b in s.active;
      } else if a != s.counter {
        assert !Conflict(platform, path, s.routes[a].path);
      }
    }
  }

  /** b is the next younger live route that conflicts with a. */
  ghost predicate NextConflict(platform: Platform, s: State, a: int, b: int) {
    && a in s.routes && b in s.routes && a < b && Conflict(platform, s.routes[a].path, s.routes[b].path)
    && forall c | c in s.routes && a < c < b :: !Conflict(platform, s.routes[a].path, s.routes[c].path)
  }

  /** Every class of mutually conflicting routes is a chain: each is suspended by the next one only. */
  ghost predicate Chained(platform: Platform, s: State) {
    forall a, b | a in s.routes && b in s.routes :: Suspends(s, b, a) <==> NextConflict(platform, s, a, b)
  }

  lemma {:induction false} NextConflictExists(platform: Platform, s: State, a: int, b: int) returns (c: int)
    requires a in s.routes && b in s.routes && a < b && Conflict(platform, s.routes[a].path, s.routes[b].path)
    ensures NextConflict(platform, s, a, c) && c <= b
    decreases b - a
  {
    hide Conflict;
    if c' :| c' in s.routes && a < c' < b && Conflict(platform, s.routes[a].path, s.routes[c'].path) {
      c := NextConflictExists(platform, s, a, c');
    } else {
      c := b;
    }
  }

  lemma ChainedIsCompatible(platform: Platform, s: State)
    requires Inv(s) && AllNameable(s) && ConflictIsSymmetric(platform) && Chained(platform, s)
    ensures PairwiseCompatible(platform, s)
  {
    hide Alternates, LastIsConnect;
    forall a, b | a in s.active && b in s.active && a < b
      ensures s.routes[a].path.IsCompatible(s.routes[b].path, platform)
      ensures s.routes[b].path.IsCompatible(s.routes[a].path, platform)
    {
      if Conflict(platform, s.routes[a].path, s.routes[b].path) {
        var c := NextConflictExists(platform, s, a, b);
        assert false;
      }
    }
  }

  lemma RequestKeepsChained(platform: Platform, s: State, path: Path)
    requires Inv(s) && AllNameable(s) && Nameable(path) && ConflictIsSymmetric(platform) && Chained(platform, s)
    ensures Chained(platform, AfterRequest(platform, s, path))
  {
    if !Refused(platform, s, path) {
      hide Alternates, LastIsConnect;
      var t, n := AfterRequest(platform, s, path), s.counter;
      forall a, b | a in t.routes && b in t.routes
        ensures Suspends(t, b, a) <==> NextConflict(platform, t, a, b)
      {
        RequestChains(platform, s, path, a, b);
      }
    }
  }

  lemma RequestChains(platform: Platform, s: State, path: Path, a: int, b: int)
    requires Inv(s) && AllNameable(s) && Nameable(path) && ConflictIsSymmetric(platform) && Chained(platform, s)
    requires !Refused(platform, s, path)
    requires var t := AfterRequest(platform, s, path); a in t.routes && b in t.routes
    ensures var t := AfterRequest(platform, s, path); Suspends(t, b, a) <==> NextConflict(platform, t, a, b)
  {
    hide Alternates, LastIsConnect, Conflict;
    var t, n := AfterRequest(platform, s, path), s.counter;
    assert n !in s.routes;
    forall c | c in s.routes
      ensures t.routes[c].path == s.routes[c].path && c < n
    {
    }
    if a != n && b != n {
      assert Suspends(t, b, a) <==> Suspends(s, b, a);
      assert NextConflict(platform, t, a, b) <==> NextConflict(platform, s, a, b);
    } else if a != n {
      assert Conflict(platform, path, s.routes[a].path) <==> Conflict(platform, s.routes[a].path, path);
      assert Suspends(t, n, a) <==> a in Conflicting(platform, s, path) by {
        assert n !in s.routes[a].suspendedBy;
      }
      if a in s.active {
        forall c | c in s.routes && a < c
          ensures !Conflict(platform, s.routes[a].path, s.routes[c].path)
        {
          if Conflict(platform, s.routes[a].path, s.routes[c].path) {
            var d := NextConflictExists(platform, s, a, c);
            assert false;
          }
        }
      } else {
        var d :| d in s.routes[a].suspendedBy;
        assert Suspends(s, d, a);
        assert NextConflict(platform, s, a, d);
      }
    }
  }

  lemma ReleaseKeepsChained(platform: Platform, s: State, id: int)
    requires Inv(s) && AllNameable(s) && ConflictIsSymmetric(platform) && ConflictIsTransitive(platform)
    requires Chained(platform, s)
    ensures Chained(platform, AfterRelease(s, id))
  {
    if id in s.routes {
      hide Alternates, LastIsConnect;
      var t := AfterRelease(s, id);
      forall a, b | a in t.routes && b in t.routes
        ensures Suspends(t, b, a) <==> NextConflict(platform, t, a, b)
      {
        ReleaseChains(platform, s, id, a, b);
      }
    }
  }

  /** If the next conflict of a goes, the next conflict of that one takes its place. */
  lemma NextConflictSkips(platform: Platform, s: State, t: State, id: int, a: int, b: int)
    requires ConflictIsSymmetric(platform) && ConflictIsTransitive(platform)
    requires t.routes.Keys == s.routes.Keys - {id}
    requires forall c | c in t.routes :: t.routes[c].path == s.routes[c].path
    requires AllNameable(s)
    requires id in s.routes && a in s.routes && b in s.routes && a != id && b != id
    ensures NextConflict(platform, t, a, b) <==>
            NextConflict(platform, s, a, b) || (NextConflict(platform, s, a, id) && NextConflict(platform, s, id, b))
  {
    hide Conflict, Nameable;
    var pa, pb, pi := s.routes[a].path, s.routes[b].path, s.routes[id].path;
    if NextConflict(platform, t, a, b) && !NextConflict(platform, s, a, b) {
      assert a < id < b && Conflict(platform, pa, pi);
      assert Conflict(platform, pi, pb);
      forall c | c in s.routes && id < c < b
        ensures !Conflict(platform, pi, s.routes[c].path)
      {
        assert c in t.routes;
      }
    }
    if NextConflict(platform, s, a, id) && NextConflict(platform, s, id, b) {
      forall c | c in t.routes && a < c < b
        ensures !Conflict(platform, pa, t.routes[c].path)
      {
        assert c < id || id < c;
      }
    }
  }

  lemma ReleaseChains(platform: Platform, s: State, id: int, a: int, b: int)
    requires Inv(s) && AllNameable(s) && ConflictIsSymmetric(platform) && ConflictIsTransitive(platform)
    requires Chained(platform, s)
    requires id in s.routes && a in s.routes && b in s.routes && a != id && b != id
    ensures var t := AfterRelease(s, id); Suspends(t, b, a) <==> NextConflict(platform, t, a, b)
  {
    hide Alternates, LastIsConnect, Resumed, Conflict, ConflictIsSymmetric, ConflictIsTransitive, NextConflict, Suspends;
    var t := AfterRelease(s, id);
    assert t.routes.Keys == s.routes.Keys - {id};
    SuspendsAfterRelease(s, id, a, b);
    NextConflictSkips(platform, s, t, id, a, b);
    assert Suspends(s, b, a) <==> NextConflict(platform, s, a, b);
    assert Suspends(s, id, a) <==> NextConflict(platform, s, a, id);
    assert Suspends(s, b, id) <==> NextConflict(platform, s, id, b);
  }

  lemma PathsStay(platform: Platform, s: State, op: Op)
    requires Inv(s) && AllNameable(s) && (op.Request? ==> Nameable(op.path))
    ensures AllNameable(Apply(platform, s, op))
  {
    hide Inv, Resumed, Conflicting;
    InvShape(s);
  }

  /** Chains last over every run. */
  lemma {:induction false} RunIsChained(platform: Platform, s: State, ops: seq<Op>)
    requires Inv(s) && AllNameable(s) && Genuine(ops) && Chained(platform, s)
    requires ConflictIsSymmetric(platform) && ConflictIsTransitive(platform)
    ensures Chained(platform, RunFrom(platform, s, ops)) && AllNameable(RunFrom(platform, s, ops))
    decreases |ops|
  {
    hide Inv, Chained, ConflictIsSymmetric, ConflictIsTransitive, AfterRequest, AfterRelease, AllNameable, Nameable;
    if |ops| > 0 {
      match ops[0] {
        case Request(path) => RequestKeepsChained(platform, s, path);
        case Release(id) => ReleaseKeepsChained(platform, s, id);
      }
      PathsStay(platform, s, ops[0]);
      assert forall i | 0 <= i < |ops[1..]| :: ops[1..][i] == ops[i + 1];
      RunIsChained(platform, Apply(platform, s, ops[0]), ops[1..]);
    }
  }

  /** No run of requests and releases leaves two incompatible routes open. */
  ghost predicate AlwaysCompatible(platform: Platform) {
    forall ops: seq<Op> | Genuine(ops) :: PairwiseCompatible(platform, Run(platform, ops))
  }

  // ---------------------------------------------------------------- the hardware's connections

  /** Exactly the connections of the active routes are there. */
  ghost predicate HardwareMatches(s: State) {
    s.connected == EndsOf(s.routes, s.active)
  }

  /** No two active routes have the same ends. */
  ghost predicate NoTwins(s: State)
    requires s.active <= s.routes.Keys
  {
    forall a, b | a in s.active && b in s.active && a != b :: Ends(s.routes[a].path) != Ends(s.routes[b].path)
  }

  lemma CompatibleIsNoTwins(platform: Platform, s: State)
    requires s.active <= s.routes.Keys && AllNameable(s) && ConflictIsReflexive(platform) && PairwiseCompatible(platform, s)
    ensures NoTwins(s)
  {
    forall a, b | a in s.active && b in s.active && a != b
      ensures Ends(s.routes[a].path) != Ends(s.routes[b].path)
    {
      var p, q := s.routes[a].path, s.routes[b].path;
      assert Conflict(platform, p, p) && !Conflict(platform, p, q);
    }
  }

  /** Whoever has the ends of a loser loses as well, so a request leaves exactly the connections of the active routes. */
  lemma RequestKeepsHardware(platform: Platform, s: State, path: Path)
    requires Inv(s) && HardwareMatches(s)
    ensures HardwareMatches(AfterRequest(platform, s, path))
  {
    InvShape(s);
    hide Inv;
    var t := AfterRequest(platform, s, path);
    if !Refused(platform, s, path) {
      forall e
        ensures e in t.connected <==> e in EndsOf(t.routes, t.active)
      {
        hide Refused;
        if e in EndsOf(t.routes, t.active) && e != Ends(path) {
          var a :| a in t.active && Ends(t.routes[a].path) == e;
          assert a in s.active && e !in EndsOf(s.routes, Conflicting(platform, s, path));
        }
        if e in t.connected && e != Ends(path) {
          var a :| a in s.active && Ends(s.routes[a].path) == e;
          assert a in t.active && t.routes[a].path == s.routes[a].path;
        }
        if e == Ends(path) {
          assert s.counter in t.active && t.routes[s.counter].path == path;
        }
      }
    }
  }

  /** The release of an active route whose ends another active route has, and no route that it lets resume. */
  ghost predicate CutsOff(s: State, id: int)
    requires WellShaped(s)
  {
    && id in s.routes && s.routes[id].IsActive()
    && Ends(s.routes[id].path) in EndsOf(s.routes, s.active - {id})
    && Ends(s.routes[id].path) !in EndsOf(s.routes, Resumed(s, id))
  }

  /** A release leaves exactly the connections of the active routes, unless it cuts off another route. */
  lemma ReleaseKeepsHardware(s: State, id: int)
    requires Inv(s) && HardwareMatches(s)
    ensures HardwareMatches(AfterRelease(s, id)) <==> !CutsOff(s, id)
  {
    if id in s.routes {
      var t, resumed := AfterRelease(s, id), Resumed(s, id);
      EndsStay(s, id);
      EndsOfBoth(s.routes, s.active - {id}, resumed);
      ActiveWithout(s, id);
      hide Inv, AfterRelease, Resumed, EndsOf;
      assert t.connected == EndsOf(s.routes, s.active) - (if s.routes[id].IsActive() then {Ends(s.routes[id].path)} else {})
                            + EndsOf(s.routes, resumed);
    }
  }

  lemma EndsStay(s: State, id: int)
    requires Inv(s) && id in s.routes
    ensures var t := AfterRelease(s, id);
            && EndsOf(t.routes, t.active) == EndsOf(s.routes, s.active - {id} + Resumed(s, id))
            && t.connected == s.connected - (if s.routes[id].IsActive() then {Ends(s.routes[id].path)} else {})
                              + EndsOf(s.routes, Resumed(s, id))
  {
    hide Alternates, LastIsConnect;
    var t, kept := AfterRelease(s, id), s.active - {id} + Resumed(s, id);
    assert id !in s.routes[id].suspendList by { assert !Suspends(s, id, id); }
    assert forall a | a in kept :: a in t.routes && a in s.routes && t.routes[a].path == s.routes[a].path;
  }

  lemma EndsOfBoth(routes: map<int, Route>, a: set<int>, b: set<int>)
    ensures EndsOf(routes, a + b) == EndsOf(routes, a) + EndsOf(routes, b)
  {
  }

  lemma ActiveWithout(s: State, id: int)
    requires Inv(s) && id in s.routes
    ensures s.routes[id].IsActive() ==> EndsOf(s.routes, s.active) == EndsOf(s.routes, s.active - {id}) + {Ends(s.routes[id].path)}
    ensures !s.routes[id].IsActive() ==> s.active - {id} == s.active
  {
    hide Alternates, LastIsConnect;
    if s.routes[id].IsActive() {
      assert id in s.active && s.active == s.active - {id} + {id};
      EndsOfMore(s.routes, s.active - {id}, id);
    }
  }

  lemma NoTwinIsCutOff(s: State, id: int)
    requires Inv(s) && NoTwins(s)
    ensures !CutsOff(s, id)
  {
    hide Alternates, LastIsConnect;
  }

  // Over whole runs, for every platform table.

  /** In every state that the run passes through, exactly the connections of the active routes are there. */
  ghost predicate MatchesThroughout(platform: Platform, s: State, ops: seq<Op>)
    requires Inv(s)
    decreases |ops|
  {
    HardwareMatches(s) && (|ops| > 0 ==> MatchesThroughout(platform, Apply(platform, s, ops[0]), ops[1..]))
  }

  /** No release of the run cuts off a route. */
  ghost predicate NeverCutsOff(platform: Platform, s: State, ops: seq<Op>)
    requires Inv(s)
    decreases |ops|
  {
    |ops| > 0 ==>
      && (ops[0].Release? ==> !CutsOff(s, ops[0].id))
      && NeverCutsOff(platform, Apply(platform, s, ops[0]), ops[1..])
  }

  /** A run goes right throughout exactly if none of its releases cuts off a route. */
  lemma {:induction false} MatchesExactlyIf(platform: Platform, s: State, ops: seq<Op>)
    requires Inv(s) && HardwareMatches(s)
    ensures MatchesThroughout(platform, s, ops) <==> NeverCutsOff(platform, s, ops)
    ensures MatchesThroughout(platform, s, ops) ==> HardwareMatches(RunFrom(platform, s, ops))
    decreases |ops|
  {
    hide Inv, HardwareMatches, CutsOff, AfterRequest, AfterRelease;
    if |ops| > 0 {
      var t := Apply(platform, s, ops[0]);
      match ops[0] {
        case Request(path) => RequestKeepsHardware(platform, s, path);
        case Release(id) => ReleaseKeepsHardware(s, id);
      }
      if HardwareMatches(t) {
        MatchesExactlyIf(platform, t, ops[1..]);
      }
    }
  }

  /** No two live routes have the same ends. */
  ghost predicate Distinct(s: State) {
    forall a, b | a in s.routes && b in s.routes && a != b :: Ends(s.routes[a].path) != Ends(s.routes[b].path)
  }

  /** No request of the run names the ends of a route that is live at the time. */
  ghost predicate NamesFreeEnds(platform: Platform, s: State, ops: seq<Op>)
    requires Inv(s)
    decreases |ops|
  {
    |ops| > 0 ==>
      && (ops[0].Request? ==> Ends(ops[0].path) !in EndsOf(s.routes, s.routes.Keys))
      && NamesFreeEnds(platform, Apply(platform, s, ops[0]), ops[1..])
  }

  lemma FreeEndsStayDistinct(platform: Platform, s: State, op: Op)
    requires Inv(s) && Distinct(s) && (op.Request? ==> Ends(op.path) !in EndsOf(s.routes, s.routes.Keys))
    ensures Distinct(Apply(platform, s, op))
  {
    InvShape(s);
    hide Inv, Conflicting, Resumed;
  }

  /** On any platform, a caller that never asks for the ends of a live route gets what it asks for. */
  lemma {:induction false} FreeEndsMatch(platform: Platform, s: State, ops: seq<Op>)
    requires Inv(s) && HardwareMatches(s) && Distinct(s) && NamesFreeEnds(platform, s, ops)
    ensures NeverCutsOff(platform, s, ops) && MatchesThroughout(platform, s, ops)
    ensures HardwareMatches(RunFrom(platform, s, ops)) && Distinct(RunFrom(platform, s, ops))
    decreases |ops|
  {
    hide Inv, HardwareMatches, CutsOff, AfterRequest, AfterRelease, Distinct, NoTwins;
    if |ops| > 0 {
      var t := Apply(platform, s, ops[0]);
      match ops[0] {
        case Request(path) => RequestKeepsHardware(platform, s, path);
        case Release(id) =>
          DistinctHasNoTwins(s);
          NoTwinIsCutOff(s, id);
          ReleaseKeepsHardware(s, id);
      }
      FreeEndsStayDistinct(platform, s, ops[0]);
      FreeEndsMatch(platform, t, ops[1..]);
    }
  }

  lemma DistinctHasNoTwins(s: State)
    requires Inv(s) && Distinct(s)
    ensures NoTwins(s)
  {
    InvShape(s);
    hide Inv;
  }

  /** Connections match over every run, if conflict is an equivalence relation. */
  lemma {:induction false} RunMatches(platform: Platform, s: State, ops: seq<Op>)
    requires Inv(s) && AllNameable(s) && Genuine(ops) && Chained(platform, s) && HardwareMatches(s)
    requires ConflictIsReflexive(platform) && ConflictIsSymmetric(platform) && ConflictIsTransitive(platform)
    ensures HardwareMatches(RunFrom(platform, s, ops))
    decreases |ops|
  {
    hide Inv, Chained, ConflictIsReflexive, ConflictIsSymmetric, ConflictIsTransitive, AfterRequest, AfterRelease, AllNameable,
         Nameable, HardwareMatches, NoTwins, PairwiseCompatible;
    if |ops| > 0 {
      InvShape(s);
      ChainedIsCompatible(platform, s);
      CompatibleIsNoTwins(platform, s);
      match ops[0] {
        case Request(path) =>
          RequestKeepsChained(platform, s, path);
          RequestKeepsHardware(platform, s, path);
        case Release(id) =>
          ReleaseKeepsChained(platform, s, id);
          NoTwinIsCutOff(s, id);
          ReleaseKeepsHardware(s, id);
      }
      PathsStay(platform, s, ops[0]);
      assert forall i | 0 <= i < |ops[1..]| :: ops[1..][i] == ops[i + 1];
      RunMatches(platform, Apply(platform, s, ops[0]), ops[1..]);
    }
  }

  /** After every run exactly the active routes' connections are there. */
  ghost predicate AlwaysConnected(platform: Platform) {
    forall ops: seq<Op> | Genuine(ops) :: HardwareMatches(Run(platform, ops))
  }

  // ---------------------------------------------------------------- runs that go wrong

  // Single steps of such runs.

  lemma NoneConflicting(platform: Platform, s: State, p: Path)
    requires s.active <= s.routes.Keys
    requires forall id | id in s.active :: !Conflict(platform, p, s.routes[id].path)
    ensures Conflicting(platform, s, p) == {}
  {
    hide Conflict;
    forall id
      ensures id !in Conflicting(platform, s, p)
    {
      assert id in s.active ==> !Conflict(platform, p, s.routes[id].path);
    }
  }

  /** A request for a path that all active routes tolerate. */
  lemma Joins(platform: Platform, s: State, p: Path) returns (t: State)
    requires Inv(s) && p.IsValid() && s.active <= s.routes.Keys
    requires forall id | id in s.active :: !Conflict(platform, p, s.routes[id].path)
    ensures t == Apply(platform, s, Request(p)) && Inv(t) && t.counter == s.counter + 1
    ensures t.routes == s.routes[s.counter := Route(p, {}, {})] && t.active == s.active + {s.counter}
    ensures t.connected == s.connected + {Ends(p)}
  {
    hide Inv;
    t := Apply(platform, s, Request(p));
    InvShape(s);
    NoneConflicting(platform, s, p);
    assert !Refused(platform, s, p);
    var losers := Conflicting(platform, s, p);
    assert (map id | id in s.routes :: if id in losers then Displaced(s.routes[id], s.counter) else s.routes[id]) == s.routes;
    assert t.routes == s.routes[s.counter := Route(p, {}, {})];
  }

  /** A request for a path that displaces the only active route. */
  lemma Displaces(platform: Platform, s: State, p: Path, l: int) returns (t: State)
    requires Inv(s) && p.IsValid() && s.active == {l} && l in s.routes
    requires Conflict(platform, p, s.routes[l].path) && s.routes[l].path.priority < p.priority
    ensures t == Apply(platform, s, Request(p)) && Inv(t) && t.counter == s.counter + 1
    ensures t.routes == s.routes[l := Displaced(s.routes[l], s.counter)][s.counter := Route(p, {l}, {})]
    ensures t.active == {s.counter}
    ensures t.connected == s.connected - {Ends(s.routes[l].path)} + {Ends(p)}
  {
    hide Conflict, Inv;
    t := Apply(platform, s, Request(p));
    InvShape(s);
    assert Conflicting(platform, s, p) == {l};
    assert !Refused(platform, s, p);
    assert EndsOf(s.routes, {l}) == {Ends(s.routes[l].path)};
    assert t.routes == s.routes[l := Displaced(s.routes[l], s.counter)][s.counter := Route(p, {l}, {})];
  }

  /** The release of an active route that suspended nobody. */
  lemma Leaves(platform: Platform, s: State, id: int) returns (t: State)
    requires Inv(s) && id in s.routes && s.routes[id].IsActive() && s.routes[id].suspendList == {}
    ensures t == Apply(platform, s, Release(id)) && Inv(t) && t.counter == s.counter
    ensures t.routes == s.routes - {id} && t.active == s.active - {id}
    ensures t.connected == s.connected - {Ends(s.routes[id].path)}
  {
    hide Inv;
    t := Apply(platform, s, Release(id));
    assert Resumed(s, id) == {};
    assert EndsOf(s.routes, {}) == {};
    assert t.routes == s.routes - {id};
  }

  /** The release of an active route that was all that kept one other suspended. */
  lemma Yields(platform: Platform, s: State, id: int, i: int) returns (t: State)
    requires Inv(s) && id in s.routes && s.routes[id].IsActive() && s.routes[id].suspendList == {i}
    requires i in s.routes && i != id && s.routes[i].suspendedBy == {id}
    ensures t == Apply(platform, s, Release(id)) && Inv(t) && t.counter == s.counter
    ensures t.routes == (s.routes - {id})[i := s.routes[i].(suspendedBy := {})]
    ensures t.active == s.active - {id} + {i}
    ensures t.connected == s.connected - {Ends(s.routes[id].path)} + {Ends(s.routes[i].path)}
  {
    hide Inv;
    t := Apply(platform, s, Release(id));
    assert Resumed(s, id) == {i};
    assert EndsOf(s.routes, {i}) == {Ends(s.routes[i].path)};
    assert s.routes[id].suspendedBy == {} && {id} - {id} + {} == {};
    assert Relinked(s, id, i) == s.routes[i].(suspendedBy := {});
    forall j | j in s.routes && j != id && j != i
      ensures Relinked(s, id, j) == s.routes[j]
    {
    }
    assert t.routes == (s.routes - {id})[i := s.routes[i].(suspendedBy := {})];
  }

  lemma {:induction false} RunFromOneMore(platform: Platform, s: State, ops: seq<Op>, op: Op)
    requires Inv(s)
    ensures RunFrom(platform, s, ops + [op]) == Apply(platform, RunFrom(platform, s, ops), op)
    decreases |ops|
  {
    hide Inv, Apply;
    if |ops| == 0 {
      assert (ops + [op])[0] == op && (ops + [op])[1..] == [];
    } else {
      assert (ops + [op])[0] == ops[0] && (ops + [op])[1..] == ops[1..] + [op];
      RunFromOneMore(platform, Apply(platform, s, ops[0]), ops[1..], op);
    }
  }

  lemma RunOneMore(platform: Platform, ops: seq<Op>, op: Op)
    ensures Run(platform, ops + [op]) == Apply(platform, Run(platform, ops), op)
  {
    InitialInv();
    hide Inv, Apply, RunFrom;
    RunFromOneMore(platform, INITIAL, ops, op);
  }

  lemma InitialInv()
    ensures Inv(INITIAL)
  {
  }

  lemma RunOfNothing(platform: Platform)
    ensures Run(platform, []) == INITIAL
  {
  }

  /** One request. */
  function One(p: Path): seq<Op> {
    [Request(p)]
  }

  lemma AfterOne(platform: Platform, p: Path) returns (s: State)
    requires p.IsValid()
    ensures s == Run(platform, One(p)) && Inv(s) && s.counter == 2
    ensures s.routes == map[1 := Route(p, {}, {})] && s.active == {1} && s.connected == {Ends(p)}
  {
    hide Run, Apply, Inv, Conflict, RunFrom;
    InitialInv();
    RunOfNothing(platform);
    assert [] + One(p) == One(p);
    RunOneMore(platform, [], Request(p));
    s := Joins(platform, INITIAL, p);
  }

  /** Two requests of which the second displaces the first. */
  lemma AfterTwo(platform: Platform, p: Path, q: Path) returns (s: State)
    requires p.IsValid() && q.IsValid() && p.priority < q.priority && Conflict(platform, q, p)
    ensures s == Run(platform, [Request(p), Request(q)]) && Inv(s) && s.counter == 3
    ensures s.routes == map[1 := Route(p, {}, {2}), 2 := Route(q, {1}, {})] && s.active == {2}
    ensures s.connected == {Ends(q)}
  {
    hide Run, Apply, Inv, Conflict;
    var s1 := AfterOne(platform, p);
    RunOneMore(platform, One(p), Request(q));
    assert One(p) + [Request(q)] == [Request(p), Request(q)];
    s := Displaces(platform, s1, q, 1);
    assert Displaced(s1.routes[1], 2) == Route(p, {}, {2});
    assert s.routes.Keys == {1, 2};
  }

  /** Two requests, the second of them tolerant of the first. */
  function Pair(p: Path, q: Path): seq<Op> {
    [Request(p), Request(q)]
  }

  /** b displaces a, d joins b, then b leaves. */
  function Trap(a: Path, b: Path, d: Path): seq<Op> {
    [Request(a), Request(b), Request(d), Release(2)]
  }

  /** The second of two requests is tolerant, the first is not. */
  lemma PairCatches(platform: Platform, p: Path, q: Path)
    requires p.IsValid() && q.IsValid() && Conflict(platform, p, q) && !Conflict(platform, q, p)
    ensures !PairwiseCompatible(platform, Run(platform, Pair(p, q)))
  {
    hide Run, Apply, Inv;
    var s := AfterOne(platform, p);
    RunOneMore(platform, One(p), Request(q));
    assert One(p) + [Request(q)] == Pair(p, q);
    var t := Joins(platform, s, q);
    assert 1 in t.active && 2 in t.active && t.routes[1].path == p && t.routes[2].path == q;
  }

  /** The state after the trap: a and d are open together. */
  lemma AfterTrap(platform: Platform, a: Path, b: Path, d: Path) returns (t: State)
    requires a.IsValid() && b.IsValid() && d.IsValid() && a.priority < b.priority
    requires Conflict(platform, b, a) && !Conflict(platform, d, b)
    ensures t == Run(platform, Trap(a, b, d)) && Inv(t)
    ensures t.routes == map[1 := Route(a, {}, {}), 3 := Route(d, {}, {})] && t.active == {1, 3}
    ensures t.connected <= {Ends(a), Ends(d)}
  {
    hide Run, Apply, Inv, Conflict;
    var s := AfterTwo(platform, a, b);
    var ops := [Request(a), Request(b)];
    RunOneMore(platform, ops, Request(d));
    RunOneMore(platform, ops + [Request(d)], Release(2));
    assert ops + [Request(d)] + [Release(2)] == Trap(a, b, d);
    var s3 := Joins(platform, s, d);
    t := Yields(platform, s3, 2, 1);
    assert t.routes.Keys == {1, 3};
  }

  lemma TrapCatches(platform: Platform, a: Path, b: Path, d: Path)
    requires a.IsValid() && b.IsValid() && d.IsValid() && a.priority < b.priority
    requires Conflict(platform, b, a) && !Conflict(platform, d, b)
    requires Conflict(platform, a, d) || Conflict(platform, d, a)
    ensures !PairwiseCompatible(platform, Run(platform, Trap(a, b, d)))
  {
    hide Run, Apply, Inv;
    var t := AfterTrap(platform, a, b, d);
    hide Run, Inv;
    assert 1 in t.active && 3 in t.active && t.routes[1].path == a && t.routes[3].path == d;
  }

  /** The trap with a itself in the place of d: the release of one twin disconnects the other. */
  lemma TwinIsCutOff(platform: Platform, a: Path, b: Path)
    requires a.IsValid() && b.IsValid() && a.priority < b.priority
    requires Conflict(platform, b, a) && !Conflict(platform, a, b)
    ensures var t := Run(platform, Trap(a, b, a) + [Release(3)]);
            StatusOf(t, 1) == Open && t.active == {1} && t.connected == {} && !HardwareMatches(t)
  {
    hide Run, Apply, Inv, Conflict;
    var s := AfterTrap(platform, a, b, a);
    RunOneMore(platform, Trap(a, b, a), Release(3));
    var t := Leaves(platform, s, 3);
    assert t.routes[1] == Route(a, {}, {});
    assert Ends(a) in EndsOf(t.routes, t.active);
  }

  /** Where conflict is not transitive: b displaces a, d displaces b, a comes back beside d, then d, b and the newcomer leave. */
  function TwinTrap(a: Path, b: Path, d: Path): seq<Op> {
    [Request(a), Request(b), Request(d), Request(a), Release(3), Release(2), Release(4)]
  }

  /** Its first half: four requests. */
  lemma AfterFour(platform: Platform, a: Path, b: Path, d: Path) returns (s: State)
    requires a.IsValid() && b.IsValid() && d.IsValid() && a.priority < b.priority < d.priority
    requires Conflict(platform, b, a) && Conflict(platform, d, b) && !Conflict(platform, a, d)
    ensures s == Run(platform, [Request(a), Request(b), Request(d), Request(a)]) && Inv(s)
    ensures s.routes == map[1 := Route(a, {}, {2}), 2 := Route(b, {1}, {3}), 3 := Route(d, {2}, {}), 4 := Route(a, {}, {})]
    ensures s.active == {3, 4} && s.connected == {Ends(a), Ends(d)}
  {
    hide Run, Apply, Inv, Conflict;
    var s2 := AfterTwo(platform, a, b);
    var o2 := [Request(a), Request(b)];
    RunOneMore(platform, o2, Request(d));
    RunOneMore(platform, o2 + [Request(d)], Request(a));
    assert o2 + [Request(d)] + [Request(a)] == [Request(a), Request(b), Request(d), Request(a)];
    var s3 := Displaces(platform, s2, d, 2);
    assert Displaced(s2.routes[2], 3) == Route(b, {1}, {3});
    assert s3.routes == map[1 := Route(a, {}, {2}), 2 := Route(b, {1}, {3}), 3 := Route(d, {2}, {})];
    s := Joins(platform, s3, a);
  }

  lemma TwinTrapCutsOff(platform: Platform, a: Path, b: Path, d: Path)
    requires a.IsValid() && b.IsValid() && d.IsValid() && a.priority < b.priority < d.priority
    requires Conflict(platform, b, a) && Conflict(platform, d, b) && !Conflict(platform, a, d)
    ensures var t := Run(platform, TwinTrap(a, b, d));
            StatusOf(t, 1) == Open && t.active == {1} && t.connected == {} && !HardwareMatches(t)
  {
    hide Run, Apply, Inv, Conflict;
    var s4 := AfterFour(platform, a, b, d);
    var o4 := [Request(a), Request(b), Request(d), Request(a)];
    RunOneMore(platform, o4, Release(3));
    RunOneMore(platform, o4 + [Release(3)], Release(2));
    RunOneMore(platform, o4 + [Release(3)] + [Release(2)], Release(4));
    assert o4 + [Release(3)] + [Release(2)] + [Release(4)] == TwinTrap(a, b, d);
    var s5 := Yields(platform, s4, 3, 2);
    assert s5.routes == map[1 := Route(a, {}, {2}), 2 := Route(b, {1}, {}), 4 := Route(a, {}, {})];
    var s6 := Yields(platform, s5, 2, 1);
    assert s6.routes == map[1 := Route(a, {}, {}), 4 := Route(a, {}, {})];
    var s7 := Leaves(platform, s6, 4);
    assert s7.routes[1] == Route(a, {}, {});
    assert Ends(a) in EndsOf(s7.routes, s7.active);
  }

  /** Where a path tolerates itself: the release of the second cuts off the first. */
  lemma DoubleIsCutOff(platform: Platform, a: Path)
    requires a.IsValid() && !Conflict(platform, a, a)
    ensures !HardwareMatches(Run(platform, Pair(a, a) + [Release(2)]))
  {
    hide Run, Apply, Inv, Conflict;
    var s := AfterOne(platform, a);
    RunOneMore(platform, One(a), Request(a));
    assert One(a) + [Request(a)] == Pair(a, a);
    RunOneMore(platform, Pair(a, a), Release(2));
    var s2 := Joins(platform, s, a);
    var t := Leaves(platform, s2, 2);
    assert t.active == {1} && 1 in t.routes && t.connected == {};
    assert Ends(t.routes[1].path) in EndsOf(t.routes, t.active);
  }

  // ---------------------------------------------------------------- the main results

  lemma ConflictOfEnds(platform: Platform, p: Path, q: Path, p': Path, q': Path)
    requires p.IsValid() && q.IsValid() && p'.IsValid() && q'.IsValid() && Ends(p) == Ends(p') && Ends(q) == Ends(q')
    ensures Conflict(platform, p, q) == Conflict(platform, p', q')
  {
  }

  /**
   For every platform table: the active routes are pairwise compatible after every run exactly
   if conflict between paths is symmetric and transitive.
   */
  lemma CompatibleExactlyIf(platform: Platform)
    ensures AlwaysCompatible(platform) <==> ConflictIsSymmetric(platform) && ConflictIsTransitive(platform)
  {
    hide Run, Apply, Trap, Conflict, Pair, Alternates, LastIsConnect, Mirrored, Ordered;
    if !ConflictIsSymmetric(platform) {
      var p, q :| Nameable(p) && Nameable(q) && Conflict(platform, p, q) && !Conflict(platform, q, p);
      PairCatches(platform, p, q);
      PairIsGenuine(p, q);
    } else if !ConflictIsTransitive(platform) {
      var p, q, r :| Nameable(p) && Nameable(q) && Nameable(r)
        && Conflict(platform, p, q) && Conflict(platform, q, r) && !Conflict(platform, p, r);
      var a, b, d := q.(priority := 1), p.(priority := 2), r.(priority := 1);
      ConflictOfEnds(platform, p, q, b, a);
      ConflictOfEnds(platform, q, r, a, d);
      ConflictOfEnds(platform, r, p, d, b);
      TrapCatches(platform, a, b, d);
      TrapIsGenuine(a, b, d);
    } else {
      forall ops: seq<Op> | Genuine(ops)
        ensures PairwiseCompatible(platform, Run(platform, ops))
      {
        RunFromStart(platform, ops);
        ChainedIsCompatible(platform, Run(platform, ops));
      }
    }
  }

  lemma RunFromStart(platform: Platform, ops: seq<Op>)
    requires Genuine(ops) && ConflictIsSymmetric(platform) && ConflictIsTransitive(platform)
    ensures Chained(platform, Run(platform, ops)) && AllNameable(Run(platform, ops))
  {
    hide ConflictIsSymmetric, ConflictIsTransitive, Nameable;
    RunIsChained(platform, INITIAL, ops);
  }

  lemma PairIsGenuine(p: Path, q: Path)
    requires Nameable(p) && Nameable(q)
    ensures Genuine(Pair(p, q)) && Genuine(Pair(p, q) + [Release(2)])
  {
  }

  lemma TrapIsGenuine(a: Path, b: Path, d: Path)
    requires Nameable(a) && Nameable(b) && Nameable(d)
    ensures Genuine(Trap(a, b, d)) && Genuine(Trap(a, b, d) + [Release(3)]) && Genuine(TwinTrap(a, b, d))
  {
  }

  /**
   For every platform table: exactly the connections of the active routes are there after every
   run exactly if conflict between paths is an equivalence relation.
   */
  lemma ConnectedExactlyIf(platform: Platform)
    ensures AlwaysConnected(platform)
            <==> ConflictIsReflexive(platform) && ConflictIsSymmetric(platform) && ConflictIsTransitive(platform)
  {
    hide Run, Apply, Inv, Trap, TwinTrap, Conflict, Pair, HardwareMatches;
    if !ConflictIsReflexive(platform) {
      var p :| Nameable(p) && !Conflict(platform, p, p);
      DoubleIsCutOff(platform, p);
      PairIsGenuine(p, p);
    } else if !ConflictIsSymmetric(platform) {
      var p, q :| Nameable(p) && Nameable(q) && Conflict(platform, p, q) && !Conflict(platform, q, p);
      var a, b := q.(priority := 1), p.(priority := 2);
      ConflictOfEnds(platform, p, q, b, a);
      ConflictOfEnds(platform, q, p, a, b);
      TwinIsCutOff(platform, a, b);
      TrapIsGenuine(a, b, a);
    } else if !ConflictIsTransitive(platform) {
      var p, q, r :| Nameable(p) && Nameable(q) && Nameable(r)
        && Conflict(platform, p, q) && Conflict(platform, q, r) && !Conflict(platform, p, r);
      var a, b, d := p.(priority := 1), q.(priority := 2), r.(priority := 3);
      ConflictOfEnds(platform, q, p, b, a);
      ConflictOfEnds(platform, r, q, d, b);
      ConflictOfEnds(platform, p, r, a, d);
      TwinTrapCutsOff(platform, a, b, d);
      TrapIsGenuine(a, b, d);
    } else {
      forall ops: seq<Op> | Genuine(ops)
        ensures HardwareMatches(Run(platform, ops))
      {
        StartMatches(platform, ops);
      }
    }
  }

  lemma StartMatches(platform: Platform, ops: seq<Op>)
    requires Genuine(ops) && ConflictIsReflexive(platform) && ConflictIsSymmetric(platform) && ConflictIsTransitive(platform)
    ensures HardwareMatches(Run(platform, ops))
  {
    hide ConflictIsReflexive, ConflictIsSymmetric, ConflictIsTransitive, Nameable;
    assert HardwareMatches(INITIAL);
    RunMatches(platform, INITIAL, ops);
  }

  lemma {:induction false} ReleasesNameNothing(platform: Platform, s: State, ids: seq<int>)
    requires Inv(s)
    ensures NamesFreeEnds(platform, s, ReleaseAll(ids))
    decreases |ids|
  {
    hide Inv, Apply;
    if |ids| > 0 {
      assert ReleaseAll(ids)[1..] == ReleaseAll(ids[1..]);
      ReleasesNameNothing(platform, Apply(platform, s, Release(ids[0])), ids[1..]);
    }
  }

  /** A run from the start that never names the ends of a live route. */
  ghost predicate AsksForFreeEnds(platform: Platform, ops: seq<Op>) {
    NamesFreeEnds(platform, INITIAL, ops)
  }

  /** On any platform, exactly the connections of the active routes are there all through a run that names free ends only. */
  lemma FreeEndsAreConnected(platform: Platform, ops: seq<Op>)
    requires AsksForFreeEnds(platform, ops)
    ensures MatchesThroughout(platform, INITIAL, ops) && HardwareMatches(Run(platform, ops)) && Distinct(Run(platform, ops))
  {
    assert HardwareMatches(INITIAL) && Distinct(INITIAL);
    hide NamesFreeEnds, MatchesThroughout;
    FreeEndsMatch(platform, INITIAL, ops);
  }

  /**
   The last remaining route is not only open: its connection, and no other, is there, after a run
   that names free ends only, and after every run if conflict is an equivalence relation.
   */
  lemma LastRouteIsConnected(platform: Platform, ops: seq<Op>, ids: seq<int>, a: int)
    requires || AsksForFreeEnds(platform, ops)
             || (Genuine(ops) && ConflictIsReflexive(platform) && ConflictIsSymmetric(platform) && ConflictIsTransitive(platform))
    requires a in Run(platform, ops).routes && a !in ids
    requires forall b | b in Run(platform, ops).routes && b != a :: b in ids
    ensures var t := RunFrom(platform, Run(platform, ops), ReleaseAll(ids));
            StatusOf(t, a) == Open && a in t.routes && t.connected == {Ends(t.routes[a].path)}
  {
    hide Run, Inv, Genuine, ConflictIsReflexive, ConflictIsSymmetric, ConflictIsTransitive, RunFrom, StatusOf, LastIsConnect,
         AsksForFreeEnds, MatchesThroughout, NeverCutsOff, Chained, AllNameable, Distinct;
    var s := Run(platform, ops);
    LastRouteIsOpen(platform, s, ids, a);
    if AsksForFreeEnds(platform, ops) {
      FreeEndsAreConnected(platform, ops);
      ReleasesNameNothing(platform, s, ids);
      FreeEndsMatch(platform, s, ReleaseAll(ids));
    } else {
      RunFromStart(platform, ops);
      StartMatches(platform, ops);
      ReleasesAreGenuine(ids);
      RunMatches(platform, s, ReleaseAll(ids));
    }
    var t := RunFrom(platform, s, ReleaseAll(ids));
    InvShape(t);
    assert EndsOf(t.routes, {a}) == {Ends(t.routes[a].path)};
  }

  lemma ReleasesAreGenuine(ids: seq<int>)
    ensures Genuine(ReleaseAll(ids))
  {
  }

  // ---------------------------------------------------------------- the arbiter's code

  lemma HasElement(s: set<int>)
    requires s != {}
    ensures exists x :: x in s
  {
    var x := SomeElement(s);
  }

  /** The routes while the losers outside todo have been displaced by route n. */
  ghost function Displacing(routes: map<int, Route>, losers: set<int>, n: int): map<int, Route> {
    map id | id in routes :: if id in losers then Displaced(routes[id], n) else routes[id]
  }

  ghost function Disconnecting(calls: map<int, seq<Call>>, losers: set<int>): map<int, seq<Call>> {
    map id | id in calls :: if id in losers then calls[id] + [Disconnect] else calls[id]
  }

  /** The routes while those in done have taken over what id suspended. */
  ghost function TakingOver(routes: map<int, Route>, done: set<int>, id: int, gone: Route): map<int, Route> {
    map i | i in routes ::
      if i in done then routes[i].(suspendList := routes[i].suspendList - {id} + gone.suspendList) else routes[i]
  }

  /** The routes while those in done have been told who suspends them instead of id. */
  ghost function HandingOver(routes: map<int, Route>, done: set<int>, id: int, gone: Route): map<int, Route> {
    map i | i in routes ::
      if i in done then routes[i].(suspendedBy := routes[i].suspendedBy - {id} + gone.suspendedBy) else routes[i]
  }

  ghost function Connecting(calls: map<int, seq<Call>>, resumed: set<int>): map<int, seq<Call>> {
    map i | i in calls :: if i in resumed then calls[i] + [Connect] else calls[i]
  }

  lemma EndsOfMore(routes: map<int, Route>, done: set<int>, x: int)
    requires x in routes
    ensures EndsOf(routes, done + {x}) == EndsOf(routes, done) + {Ends(routes[x].path)}
    ensures EndsOf(routes, {}) == {}
  {
  }

  lemma DisplacingStep(routes: map<int, Route>, done: set<int>, n: int, x: int)
    requires x in routes && x !in done
    ensures x in Displacing(routes, done, n) && Displacing(routes, done, n)[x] == routes[x]
    ensures Displacing(routes, done + {x}, n) == Displacing(routes, done, n)[x := Displaced(routes[x], n)]
  {
  }

  lemma DisconnectingStep(calls: map<int, seq<Call>>, done: set<int>, x: int)
    requires x in calls && x !in done
    ensures x in Disconnecting(calls, done) && Disconnecting(calls, done)[x] == calls[x]
    ensures Disconnecting(calls, done + {x}) == Disconnecting(calls, done)[x := calls[x] + [Disconnect]]
  {
  }

  lemma HandingOverStep(routes: map<int, Route>, done: set<int>, id: int, gone: Route, x: int)
    requires x in routes && x !in done
    ensures x in HandingOver(routes, done, id, gone) && HandingOver(routes, done, id, gone)[x] == routes[x]
    ensures HandingOver(routes, done + {x}, id, gone) == HandingOver(routes, done, id, gone)
              [x := routes[x].(suspendedBy := routes[x].suspendedBy - {id} + gone.suspendedBy)]
  {
  }

  lemma ConnectingStep(calls: map<int, seq<Call>>, done: set<int>, x: int)
    requires x in calls && x !in done
    ensures x in Connecting(calls, done) && Connecting(calls, done)[x] == calls[x]
    ensures Connecting(calls, done + {x}) == Connecting(calls, done)[x := calls[x] + [Connect]]
  {
  }

  // ---------------------------------------------------------------- what a caller sees of a call

  /** The platform lets a connection and that of another path be open together. */
  predicate Agree(platform: Platform, source: int, sink: int, p: Path) {
    platform(source, sink, p.source, p.sink)
  }

  /** Route n has joined: exactly the active routes that its ends do not agree with are suspended, by n. */
  ghost predicate Joined(platform: Platform, s: State, t: State, n: int) {
    && n in t.routes && t.routes.Keys == s.routes.Keys + {n} && t.counter == n + 1 && t.routes[n].suspendedBy == {}
    && (forall a :: a in t.active
          <==> a == n || (a in s.active && a in s.routes
                          && Agree(platform, t.routes[n].path.source, t.routes[n].path.sink, s.routes[a].path)))
    && forall a | a in s.routes ::
         && t.routes[a].path == s.routes[a].path && t.routes[a].suspendList == s.routes[a].suspendList
         && (a in t.routes[n].suspendList <==> a in s.active && a !in t.active)
         && t.routes[a].suspendedBy == s.routes[a].suspendedBy + if a in s.active && a !in t.active then {n} else {}
  }

  lemma RequestMeans(platform: Platform, s: State, path: Path)
    requires Inv(s)
    ensures var t := AfterRequest(platform, s, path);
            && s.counter > 0 && s.counter !in s.routes
            && (!Refused(platform, s, path) <==>
                 (path.source != -1 && path.sink != -1 && path.priority != -1
                 && forall a | a in s.active ::
                      && a in s.routes
                      && (Agree(platform, path.source, path.sink, s.routes[a].path) || s.routes[a].path.priority < path.priority)))
            && (Refused(platform, s, path) ==> t == s)
            && (!Refused(platform, s, path) ==> Joined(platform, s, t, s.counter) && t.routes[s.counter].path == path)
  {
    hide Alternates, LastIsConnect, Mirrored, Ordered;
    assert s.counter !in s.routes;
  }

  lemma LosersMean(platform: Platform, s: State, path: Path)
    requires Inv(s) && path.IsValid()
    ensures !Refused(platform, s, path) <==> forall a | a in s.active ::
              a in s.routes && (Agree(platform, path.source, path.sink, s.routes[a].path) || s.routes[a].path.priority < path.priority)
    ensures forall a :: a in Conflicting(platform, s, path)
              <==> a in s.active && a in s.routes && !Agree(platform, path.source, path.sink, s.routes[a].path)
  {
    RequestMeans(platform, s, path);
    hide Alternates, LastIsConnect, Mirrored, Ordered, Refused;
  }

  /**
   Route id has left: whoever it had suspended is suspended by its suspenders instead, and if
   there are none and nobody else has suspended it, it is active again.
   */
  ghost predicate Left(s: State, t: State, id: int)
    requires id in s.routes
  {
    && t.routes.Keys == s.routes.Keys - {id} && t.counter == s.counter
    && (forall a :: a in t.active
          <==> a != id && (a in s.active || (a in s.routes && id in s.active && s.routes[a].suspendedBy == {id})))
    && forall a | a in t.routes ::
         && t.routes[a].path == s.routes[a].path
         && t.routes[a].suspendedBy
            == if id in s.routes[a].suspendedBy then s.routes[a].suspendedBy - {id} + s.routes[id].suspendedBy
               else s.routes[a].suspendedBy
  }

  lemma ReleaseMeans(s: State, id: int)
    requires Inv(s)
    ensures if id in s.routes then Left(s, AfterRelease(s, id), id) else AfterRelease(s, id) == s
  {
    InvShape(s);
    if id in s.routes {
      hide Alternates, LastIsConnect, Ordered, Traced;
      assert !s.routes[id].IsActive() <==> id !in s.active;
      forall a | a in s.routes
        ensures a in s.routes[id].suspendList <==> id in s.routes[a].suspendedBy
      {
        assert Suspends(s, id, a) <==> a in s.routes[id].suspendList;
      }
    }
  }

  class Arbiter {
    const platform: Platform
    var activePaths: set<int>
    var routes: map<int, Route>
    var pathCounter: int
    ghost var calls: map<int, seq<Call>>
    ghost var connected: set<Connection>

    ghost function Abstract(): State
      reads this
    {
      State(routes, activePaths, pathCounter, calls, connected)
    }

    ghost predicate Valid()
      reads this
    {
      Inv(Abstract())
    }

    constructor (platform: Platform)
      ensures Valid() && Abstract() == INITIAL && this.platform == platform
    {
      this.platform := platform;
      activePaths, routes, pathCounter, calls, connected := {}, map[], 1, map[], {};
    }

    /** Which active paths a new path would suspend, or that it loses against one of them. */
    method FindLosers(path: Path) returns (ok: bool, losers: set<int>)
      requires Valid() && path.IsValid()
      ensures ok <==> !Refused(platform, Abstract(), path)
      ensures ok ==> losers == Conflicting(platform, Abstract(), path)
      ensures ok <==> forall a | a in activePaths ::
                        a in routes && (Agree(platform, path.source, path.sink, routes[a].path) || routes[a].path.priority < path.priority)
      ensures ok ==> forall a :: a in losers
                       <==> a in activePaths && a in routes && !Agree(platform, path.source, path.sink, routes[a].path)
    {
      LosersMean(platform, Abstract(), path);
      hide Inv, Agree;
      InvShape(Abstract());
      ok, losers := true, {};
      var rest := activePaths;
      while rest != {}
        invariant rest <= activePaths
        invariant losers == set id | id in activePaths - rest && Conflict(platform, path, routes[id].path)
        invariant forall id | id in losers :: routes[id].path.priority < path.priority
        decreases rest
      {
        HasElement(rest);
        var id :| id in rest;
        rest := rest - {id};
        var activePath := routes[id].path;
        if !path.IsCompatible(activePath, platform) {
          if activePath.priority >= path.priority {
            assert id in Conflicting(platform, Abstract(), path);
            return false, {};
          }
          losers := losers + {id};
        }
      }
      assert activePaths - rest == activePaths;
    }

    /**
     A valid path is accepted exactly if every active route is compatible with it or has a lower
     priority. Then exactly the incompatible ones are suspended by it and leave the active set.
     */
    method Request(source: int, sink: int, prio: int) returns (id: int)
      requires Valid()
      modifies this
      ensures Valid()
      ensures Abstract() == AfterRequest(platform, old(Abstract()), Path(source, sink, prio))
      ensures id != -1 <==>
                && source != -1 && sink != -1 && prio != -1
                && forall a | a in old(activePaths) ::
                     && a in old(routes)
                     && (Agree(platform, source, sink, old(routes)[a].path) || old(routes)[a].path.priority < prio)
      ensures id == -1 ==> Abstract() == old(Abstract())
      ensures id != -1 ==> id == old(pathCounter) && id !in old(routes) && Joined(platform, old(Abstract()), Abstract(), id)
      ensures id != -1 ==> routes[id].path == Path(source, sink, prio)
    {
      hide Inv, Conflicting, Refused, Joined, Agree;
      var path := Path(source, sink, prio);
      RequestMeans(platform, Abstract(), path);
      InvShape(Abstract());
      RequestKeepsInv(platform, Abstract(), path);
      InvalidIsRefused(platform, Abstract(), path);
      if !path.IsValid() {
        return -1;
      }
      var ok, pathsToSuspend := FindLosers(path);
      if !ok {
        return -1;
      }
      ghost var s := Abstract();
      LosersAreActive(platform, s, path);
      id := pathCounter;
      pathCounter := pathCounter + 1;
      Displace(pathsToSuspend, id);
      routes := routes[id := Route(path, pathsToSuspend, {})];
      activePaths := activePaths + {id};
      calls := calls[id := [Connect]];
      connected := connected + {Ends(path)};
    }

    /** Suspend the losers of a request and disconnect them. */
    method Displace(losers: set<int>, id: int)
      requires losers <= routes.Keys && losers <= calls.Keys
      modifies this`routes, this`activePaths, this`calls, this`connected
      ensures activePaths == old(activePaths) - losers && connected == old(connected) - EndsOf(old(routes), losers)
      ensures routes == Displacing(old(routes), losers, id) && calls == Disconnecting(old(calls), losers)
    {
      hide Displacing, Disconnecting;
      ghost var routes0, calls0 := routes, calls;
      var rest := losers;
      DisplacingNone(routes, calls, id);
      assert losers - rest == {};
      while rest != {}
        invariant rest <= losers
        invariant activePaths == old(activePaths) - (losers - rest)
        invariant routes == Displacing(routes0, losers - rest, id)
        invariant calls == Disconnecting(calls0, losers - rest)
        invariant connected == old(connected) - EndsOf(routes0, losers - rest)
        decreases rest
      {
        HasElement(rest);
        var loser :| loser in rest;
        assert losers - (rest - {loser}) == losers - rest + {loser};
        EndsOfMore(routes0, losers - rest, loser);
        DisplacingStep(routes0, losers - rest, id, loser);
        DisconnectingStep(calls0, losers - rest, loser);
        rest := rest - {loser};
        activePaths := activePaths - {loser};
        routes := routes[loser := Displaced(routes[loser], id)];
        calls := calls[loser := calls[loser] + [Disconnect]];
        connected := connected - {Ends(routes0[loser].path)};
      }
      assert losers - rest == losers;
    }

    /**
     Open for the active routes and no others; a suspended route waits for an active one of
     higher priority; and where the hardware follows the active routes, open means connected.
     */
    method GetStatus(id: int) returns (status: Status)
      requires Valid()
      ensures status == Open <==> id in activePaths
      ensures status == Closed <==> id !in routes
      ensures status == Suspended ==> id in routes && exists b | b in activePaths && b in routes ::
                routes[b].path.priority > routes[id].path.priority
      ensures status == Open && HardwareMatches(Abstract()) ==> id in routes && Ends(routes[id].path) in connected
    {
      InvShape(Abstract());
      ActiveIsOpen(Abstract(), id);
      hide Inv;
      if id !in routes {
        return Closed;
      }
      if routes[id].IsActive() {
        return Open;
      }
      ghost var chain := SuspendedHasActiveAbove(Abstract(), id);
      ghost var top := chain[|chain| - 1];
      assert top in activePaths && top in routes && routes[top].path.priority > routes[id].path.priority;
      return Suspended;
    }

    /** An unknown route is ignored; another goes, and whoever suspended it suspends what it suspended. */
    method Release(id: int)
      requires Valid()
      modifies this
      ensures Valid()
      ensures Abstract() == AfterRelease(old(Abstract()), id)
      ensures if id in old(routes) then Left(old(Abstract()), Abstract(), id) else Abstract() == old(Abstract())
    {
      hide Inv, Resumed, Relinked, Left;
      ghost var s := Abstract();
      ReleaseMeans(s, id);
      InvShape(s);
      ReleaseKeepsInv(s, id);
      if id !in routes {
        return;
      }
      var gone := routes[id];
      InvNeighbours(s, id);
      routes := routes - {id};
      activePaths := activePaths - {id};
      if gone.IsActive() {
        calls := calls[id := calls[id] + [Disconnect]];
        connected := connected - {Ends(gone.path)};
      }
      ghost var routes0, calls0 := routes, calls;
      TakeOver(id, gone);
      ghost var routes1 := routes;
      HandOver(id, gone);
      ReleaseAssembled(s, id, routes0, routes1, routes, activePaths, calls0, calls, connected);
    }

    /** The first loop: whoever suspended the released route now suspends what it suspended. */
    method TakeOver(id: int, gone: Route)
      requires gone.suspendedBy <= routes.Keys
      modifies this`routes
      ensures routes == TakingOver(old(routes), gone.suspendedBy, id, gone)
    {
      ghost var before := routes;
      var rest := gone.suspendedBy;
      while rest != {}
        invariant rest <= gone.suspendedBy
        invariant routes == TakingOver(before, gone.suspendedBy - rest, id, gone)
        decreases rest
      {
        HasElement(rest);
        var i :| i in rest;
        assert gone.suspendedBy - (rest - {i}) == gone.suspendedBy - rest + {i};
        rest := rest - {i};
        routes := routes[i := routes[i].(suspendList := routes[i].suspendList - {id} + gone.suspendList)];
      }
      assert gone.suspendedBy - rest == gone.suspendedBy;
    }

    /** The second loop: what the released route suspended learns who suspends it now, or resumes. */
    method HandOver(id: int, gone: Route)
      requires gone.suspendList <= routes.Keys && gone.suspendList <= calls.Keys
      modifies this`routes, this`activePaths, this`calls, this`connected
      ensures routes == HandingOver(old(routes), gone.suspendList, id, gone)
      ensures var resumed := Freed(old(routes), id, gone);
              activePaths == old(activePaths) + resumed && calls == Connecting(old(calls), resumed)
              && connected == old(connected) + EndsOf(old(routes), resumed)
    {
      hide HandingOver, Connecting;
      ghost var before, active, calls0 := routes, activePaths, calls;
      ghost var resumed := Freed(before, id, gone);
      var rest := gone.suspendList;
      HandingOverNone(before, calls0, id, gone);
      assert gone.suspendList - rest == {} && resumed - rest == {};
      while rest != {}
        invariant rest <= gone.suspendList
        invariant routes == HandingOver(before, gone.suspendList - rest, id, gone)
        invariant activePaths == active + (resumed - rest)
        invariant calls == Connecting(calls0, resumed - rest)
        invariant connected == old(connected) + EndsOf(before, resumed - rest)
        decreases rest
      {
        HasElement(rest);
        var i :| i in rest;
        assert gone.suspendList - (rest - {i}) == gone.suspendList - rest + {i};
        ghost var soFar := resumed - rest;
        if i in resumed {
          assert resumed - (rest - {i}) == soFar + {i};
        } else {
          assert resumed - (rest - {i}) == soFar;
        }
        EndsOfMore(before, soFar, i);
        HandingOverStep(before, gone.suspendList - rest, id, gone, i);
        ConnectingStep(calls0, resumed - rest, i);
        rest := rest - {i};
        var suspendedBy := routes[i].suspendedBy - {id};
        if gone.suspendedBy != {} {
          suspendedBy := suspendedBy + gone.suspendedBy;
        } else if suspendedBy == {} {
          activePaths := activePaths + {i};
          calls := calls[i := calls[i] + [Connect]];
          connected := connected + {Ends(routes[i].path)};
        }
        assert suspendedBy == before[i].suspendedBy - {id} + gone.suspendedBy;
        routes := routes[i := routes[i].(suspendedBy := suspendedBy)];
      }
      assert gone.suspendList - rest == gone.suspendList && resumed - rest == resumed;
    }
  }

  lemma DisplacingNone(routes: map<int, Route>, calls: map<int, seq<Call>>, n: int)
    ensures Displacing(routes, {}, n) == routes && Disconnecting(calls, {}) == calls
  {
  }

  lemma HandingOverNone(routes: map<int, Route>, calls: map<int, seq<Call>>, id: int, gone: Route)
    ensures HandingOver(routes, {}, id, gone) == routes && Connecting(calls, {}) == calls
  {
  }

  /** The routes that only id was suspending, if nobody was suspending id. */
  ghost function Freed(routes: map<int, Route>, id: int, gone: Route): set<int>
    requires gone.suspendList <= routes.Keys
  {
    set i | i in gone.suspendList && gone.suspendedBy == {} && routes[i].suspendedBy - {id} == {}
  }

  lemma InvShape(s: State)
    requires Inv(s)
    ensures s.active <= s.routes.Keys <= s.calls.Keys && s.counter !in s.routes && s.counter !in s.calls
    ensures forall a | a in s.routes :: s.routes[a].suspendList <= s.routes.Keys && s.routes[a].suspendedBy <= s.routes.Keys
  {
    hide Alternates, LastIsConnect;
  }

  lemma ActiveIsOpen(s: State, id: int)
    requires Inv(s)
    ensures id in s.active <==> id in s.routes && s.routes[id].IsActive()
  {
    hide Alternates, LastIsConnect;
  }

  lemma InvNeighbours(s: State, id: int)
    requires Inv(s) && id in s.routes
    ensures id !in s.routes[id].suspendList && id !in s.routes[id].suspendedBy
    ensures s.routes[id].suspendList !! s.routes[id].suspendedBy
  {
    hide Alternates, LastIsConnect;
    assert !Suspends(s, id, id);
    forall a | a in s.routes[id].suspendList
      ensures a !in s.routes[id].suspendedBy
    {
      assert Suspends(s, id, a);
      assert Suspends(s, a, id) ==> id < a;
    }
  }

  lemma InvalidIsRefused(platform: Platform, s: State, path: Path)
    requires s.active <= s.routes.Keys
    ensures !path.IsValid() ==> Refused(platform, s, path)
  {
  }

  lemma LosersAreActive(platform: Platform, s: State, path: Path)
    requires s.active <= s.routes.Keys
    ensures Conflicting(platform, s, path) <= s.active
  {
  }

  lemma ReleaseAssembled(s: State, id: int, routes0: map<int, Route>, routes1: map<int, Route>, routes: map<int, Route>,
                         active: set<int>, calls0: map<int, seq<Call>>, calls: map<int, seq<Call>>,
                         connected: set<Connection>)
    requires s.active <= s.routes.Keys <= s.calls.Keys && id in s.routes
    requires var gone := s.routes[id];
      && gone.suspendList <= routes0.Keys && gone.suspendList <= s.routes.Keys
      && id !in gone.suspendList && gone.suspendList !! gone.suspendedBy
      && routes0 == s.routes - {id} && routes1 == TakingOver(routes0, gone.suspendedBy, id, gone)
      && routes == HandingOver(routes1, gone.suspendList, id, gone)
      && calls0 == (if gone.IsActive() then s.calls[id := s.calls[id] + [Disconnect]] else s.calls)
      && active == s.active - {id} + Freed(routes1, id, gone) && calls == Connecting(calls0, Freed(routes1, id, gone))
      && connected == s.connected - (if gone.IsActive() then {Ends(gone.path)} else {}) + EndsOf(routes1, Freed(routes1, id, gone))
    ensures AfterRelease(s, id) == State(routes, active, s.counter, calls, connected)
  {
    var gone := s.routes[id];
    RoutesRelinked(s, id, routes0, routes1, routes);
    FreedAreResumed(s, id, routes0, routes1);
    hide HandingOver, TakingOver, Freed, Resumed, EndsOf, Relinked;
    var t := AfterRelease(s, id);
    assert t.routes == routes;
    assert t.calls == calls;
    assert t.connected == connected;
  }

  lemma RoutesRelinked(s: State, id: int, routes0: map<int, Route>, routes1: map<int, Route>, routes: map<int, Route>)
    requires id in s.routes && s.routes[id].suspendList <= s.routes.Keys
    requires var gone := s.routes[id];
      && id !in gone.suspendList && gone.suspendList !! gone.suspendedBy
      && routes0 == s.routes - {id} && routes1 == TakingOver(routes0, gone.suspendedBy, id, gone)
      && routes == HandingOver(routes1, gone.suspendList, id, gone)
    ensures routes == map i | i in s.routes && i != id :: Relinked(s, id, i)
  {
  }

  lemma FreedAreResumed(s: State, id: int, routes0: map<int, Route>, routes1: map<int, Route>)
    requires id in s.routes && s.routes[id].suspendList <= s.routes.Keys && id !in s.routes[id].suspendList
    requires var gone := s.routes[id];
      && gone.suspendList <= routes0.Keys && gone.suspendList !! gone.suspendedBy
      && routes0 == s.routes - {id} && routes1 == TakingOver(routes0, gone.suspendedBy, id, gone)
    ensures Freed(routes1, id, s.routes[id]) == Resumed(s, id)
    ensures EndsOf(routes1, Resumed(s, id)) == EndsOf(s.routes, Resumed(s, id))
  {
    var gone := s.routes[id];
    forall i | i in gone.suspendList
      ensures routes1[i].suspendedBy == s.routes[i].suspendedBy && routes1[i].path == s.routes[i].path
    {
    }
    var ids := Resumed(s, id);
    assert forall i :: i in Freed(routes1, id, gone) <==> i in ids;
    assert forall i | i in ids :: i in routes1 && i in s.routes && Ends(routes1[i].path) == Ends(s.routes[i].path);
  }
}
