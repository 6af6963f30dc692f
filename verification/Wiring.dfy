/** What is plugged into what. Stations (hosts and gateways) are named by their hardware address. */
module Wiring {
  import opened Addressing

  type SwitchId = nat

  /** The far end of an interface: a station, or interface `port` of switch `sw`. */
  datatype Peer = Station(host: Mac) | Trunk(sw: SwitchId, port: nat)

  /** Each switch's interfaces, in the order `connect_ethernet` pushed them. */
  type Wires = map<SwitchId, seq<Peer>>

  datatype Plug = AddSwitch(s: SwitchId) | PlugStation(s: SwitchId, h: Mac) | PlugSwitches(a: SwitchId, b: SwitchId)

  ghost predicate Plugged(w: Wires, h: Mac) {
    exists s, p: nat :: s in w && p < |w[s]| && w[s][p] == Station(h)
  }

  ghost predicate Adjacent(w: Wires, a: SwitchId, b: SwitchId) {
    a in w && exists p: nat :: p < |w[a]| && w[a][p].Trunk? && w[a][p].sw == b
  }

  ghost predicate IsPath(w: Wires, path: seq<SwitchId>, a: SwitchId, b: SwitchId) {
    && |path| > 0 && path[0] == a && path[|path| - 1] == b
    && (forall i :: 0 <= i < |path| ==> path[i] in w)
    && forall i :: 0 <= i < |path| - 1 ==> Adjacent(w, path[i], path[i + 1])
  }

  ghost predicate Connected(w: Wires, a: SwitchId, b: SwitchId) {
    exists path :: IsPath(w, path, a, b)
  }

  /** A plug that closes no loop, moves no station and gives no two stations one address. */
  ghost predicate CanPlug(w: Wires, plug: Plug) {
    match plug
    case AddSwitch(s) => s !in w
    case PlugStation(s, h) => s in w && h != BROADCAST_MAC && !Plugged(w, h)
    case PlugSwitches(a, b) => a in w && b in w && !Connected(w, a, b)
  }

  ghost function Apply(w: Wires, plug: Plug): Wires
    requires CanPlug(w, plug)
  {
    match plug
    case AddSwitch(s) => w[s := []]
    case PlugStation(s, h) => w[s := w[s] + [Station(h)]]
    case PlugSwitches(a, b) =>
      assert IsPath(w, [a], a, a);
      w[a := w[a] + [Trunk(b, |w[b]|)]][b := w[b] + [Trunk(a, |w[a]|)]]
  }

  ghost predicate PlugStep(v: Wires, w: Wires) {
    exists plug :: CanPlug(v, plug) && w == Apply(v, plug)
  }

  /** Plugging things together one at a time, from nothing, without ever closing a loop. */
  ghost predicate IsWiring(history: seq<Wires>) {
    && |history| > 0 && history[0] == map[]
    && forall i :: 0 <= i < |history| - 1 ==> PlugStep(history[i], history[i + 1])
  }

  /** A wiring with, for each switch and station, the interface leading to the station and how many
      trunks away it is. */
  datatype Topology = Topology(
    ports: Wires,
    attach: map<Mac, (SwitchId, nat)>,
    toward: (SwitchId, Mac) -> nat,
    dist: (SwitchId, Mac) -> nat)

  /** The laws of a connected loop-free network. Crossing the interface toward a station brings it one
      trunk nearer; crossing any other trunk takes it one further, and leads back to where one was. */
  ghost predicate LoopFree(t: Topology) {
    && BROADCAST_MAC !in t.attach
    && (forall h :: h in t.attach ==>
      && t.attach[h].0 in t.ports && t.attach[h].1 < |t.ports[t.attach[h].0]|
      && t.ports[t.attach[h].0][t.attach[h].1] == Station(h))
    && (forall s, p: nat :: s in t.ports && p < |t.ports[s]| && t.ports[s][p].Station? ==>
      t.ports[s][p].host in t.attach && t.attach[t.ports[s][p].host] == (s, p))
    && (forall s, p: nat :: s in t.ports && p < |t.ports[s]| && t.ports[s][p].Trunk? ==>
      TrunkGoesBack(t.ports, s, p))
    && (forall s, h :: s in t.ports && h in t.attach ==>
      && t.toward(s, h) < |t.ports[s]|
      && (if s == t.attach[h].0 then t.toward(s, h) == t.attach[h].1 && t.dist(s, h) == 0
          else t.ports[s][t.toward(s, h)].Trunk?))
    && (forall s, h, p: nat :: s in t.ports && h in t.attach && p < |t.ports[s]| && t.ports[s][p].Trunk? ==>
      CrossingLaw(t, s, h, p))
  }

  ghost predicate TrunkGoesBack(w: Wires, s: SwitchId, p: nat)
    requires s in w && p < |w[s]| && w[s][p].Trunk?
  {
    var Trunk(s', p') := w[s][p];
    s' in w && p' < |w[s']| && w[s'][p'] == Trunk(s, p)
  }

  ghost predicate CrossingLaw(t: Topology, s: SwitchId, h: Mac, p: nat)
    requires s in t.ports && p < |t.ports[s]| && t.ports[s][p].Trunk?
  {
    var Trunk(s', p') := t.ports[s][p];
    if p == t.toward(s, h) then t.dist(s', h) + 1 == t.dist(s, h)
    else t.dist(s', h) == t.dist(s, h) + 1 && t.toward(s', h) == p'
  }

  /** Routes between switches: `comp` labels the connected pieces, `next` is the first interface. */
  datatype Routes = Routes(
    comp: SwitchId -> SwitchId,
    next: (SwitchId, SwitchId) -> nat,
    dist: (SwitchId, SwitchId) -> nat)

  ghost predicate Routed(w: Wires, r: Routes) {
    && (forall s :: s in w ==> r.comp(s) in w && r.dist(s, s) == 0)
    && (forall s, p: nat :: s in w && p < |w[s]| && w[s][p].Trunk? ==>
      TrunkGoesBack(w, s, p) && r.comp(w[s][p].sw) == r.comp(s))
    && (forall s, t :: s in w && t in w && r.comp(s) == r.comp(t) && s != t ==>
      r.next(s, t) < |w[s]| && w[s][r.next(s, t)].Trunk?)
    && (forall s, t, p: nat :: s in w && t in w && r.comp(s) == r.comp(t) && p < |w[s]| && w[s][p].Trunk? ==>
      SwitchCrossingLaw(w, r, s, t, p))
  }

  ghost predicate SwitchCrossingLaw(w: Wires, r: Routes, s: SwitchId, t: SwitchId, p: nat)
    requires s in w && p < |w[s]| && w[s][p].Trunk?
  {
    var Trunk(s', p') := w[s][p];
    if s != t && p == r.next(s, t) then r.dist(s', t) + 1 == r.dist(s, t)
    else r.dist(s', t) == r.dist(s, t) + 1 && r.next(s', t) == p'
  }

  ghost predicate StationsOnce(w: Wires) {
    && (forall s, p: nat :: s in w && p < |w[s]| ==> w[s][p] != Station(BROADCAST_MAC))
    && (forall s, p: nat, s', p': nat ::
      (s in w && p < |w[s]| && s' in w && p' < |w[s']| && w[s][p].Station? && w[s][p] == w[s'][p']) ==>
      s == s' && p == p')
  }

  lemma {:induction false} PathStaysInPiece(w: Wires, r: Routes, path: seq<SwitchId>, a: SwitchId, b: SwitchId)
    requires Routed(w, r) && IsPath(w, path, a, b)
    ensures r.comp(a) == r.comp(b)
    decreases |path|
  {
    if |path| > 1 {
      assert Adjacent(w, path[0], path[0 + 1]);
      var rest := path[1..];
      forall i | 0 <= i < |rest| - 1
        ensures Adjacent(w, rest[i], rest[i + 1])
      {
        assert Adjacent(w, path[i + 1], path[i + 1 + 1]);
      }
      PathStaysInPiece(w, r, rest, path[1], b);
    }
  }

  lemma {:induction false} PieceIsConnected(w: Wires, r: Routes, a: SwitchId, b: SwitchId)
    requires Routed(w, r) && a in w && b in w && r.comp(a) == r.comp(b)
    ensures Connected(w, a, b)
    decreases r.dist(a, b)
  {
    if a == b {
      assert IsPath(w, [a], a, b);
    } else {
      var p := r.next(a, b);
      assert SwitchCrossingLaw(w, r, a, b, p);
      var c := w[a][p].sw;
      PieceIsConnected(w, r, c, b);
      var path :| IsPath(w, path, c, b);
      assert Adjacent(w, a, c);
      assert IsPath(w, [a] + path, a, b);
    }
  }

  /** Joining two pieces through new interfaces `pa` of `a` and `pb` of `b`. */
  ghost function JoinedRoutes(r: Routes, a: SwitchId, pa: nat, b: SwitchId, pb: nat): Routes {
    var Routes(comp, next, dist) := r;
    Routes(
      (s: SwitchId) => if comp(s) == comp(b) then comp(a) else comp(s),
      (s: SwitchId, t: SwitchId) =>
        if comp(s) == comp(t) then next(s, t)
        else if comp(s) == comp(a) then (if s == a then pa else next(s, a))
        else (if s == b then pb else next(s, b)),
      (s: SwitchId, t: SwitchId) =>
        if comp(s) == comp(t) then dist(s, t)
        else if comp(s) == comp(a) then dist(s, a) + 1 + dist(b, t)
        else dist(s, b) + 1 + dist(a, t))
  }

  lemma JoinKeepsCrossingLaw(w: Wires, r: Routes, a: SwitchId, b: SwitchId, s: SwitchId, t: SwitchId, p: nat)
    requires Routed(w, r) && CanPlug(w, PlugSwitches(a, b)) && r.comp(a) != r.comp(b) && a != b
    requires var v: Wires := Apply(w, PlugSwitches(a, b));
             var q := JoinedRoutes(r, a, |w[a]|, b, |w[b]|);
             s in v && t in v && q.comp(s) == q.comp(t) && p < |v[s]| && v[s][p].Trunk?
    ensures SwitchCrossingLaw(Apply(w, PlugSwitches(a, b)), JoinedRoutes(r, a, |w[a]|, b, |w[b]|), s, t, p)
  {
    if p < |w[s]| {
      if r.comp(s) == r.comp(t) {
        assert SwitchCrossingLaw(w, r, s, t, p);
      } else if r.comp(s) == r.comp(a) {
        assert SwitchCrossingLaw(w, r, s, a, p);
      } else {
        assert SwitchCrossingLaw(w, r, s, b, p);
      }
    }
  }

  lemma JoinKeepsTrunks(w: Wires, r: Routes, a: SwitchId, b: SwitchId)
    requires Routed(w, r) && CanPlug(w, PlugSwitches(a, b)) && a != b
    ensures var v: Wires := Apply(w, PlugSwitches(a, b));
            var q := JoinedRoutes(r, a, |w[a]|, b, |w[b]|);
            forall s, p: nat :: s in v && p < |v[s]| && v[s][p].Trunk? ==>
              TrunkGoesBack(v, s, p) && q.comp(v[s][p].sw) == q.comp(s)
  {
    var v: Wires := Apply(w, PlugSwitches(a, b));
    var q := JoinedRoutes(r, a, |w[a]|, b, |w[b]|);
    forall s, p: nat | s in v && p < |v[s]| && v[s][p].Trunk?
      ensures TrunkGoesBack(v, s, p) && q.comp(v[s][p].sw) == q.comp(s)
    {
      if p < |w[s]| {
        assert TrunkGoesBack(w, s, p);
      }
    }
  }

  lemma JoinKeepsRoutes(w: Wires, r: Routes, a: SwitchId, b: SwitchId)
    requires Routed(w, r) && CanPlug(w, PlugSwitches(a, b))
    ensures Routed(Apply(w, PlugSwitches(a, b)), JoinedRoutes(r, a, |w[a]|, b, |w[b]|))
  {
    if r.comp(a) == r.comp(b) {
      PieceIsConnected(w, r, a, b);
      assert false;
    }
    var v: Wires := Apply(w, PlugSwitches(a, b));
    var q := JoinedRoutes(r, a, |w[a]|, b, |w[b]|);
    JoinKeepsTrunks(w, r, a, b);
    forall s, t, p: nat | s in v && t in v && q.comp(s) == q.comp(t) && p < |v[s]| && v[s][p].Trunk?
      ensures SwitchCrossingLaw(v, q, s, t, p)
    {
      JoinKeepsCrossingLaw(w, r, a, b, s, t, p);
    }
  }

  lemma PlugStationKeepsRoutes(w: Wires, r: Routes, s: SwitchId, h: Mac)
    requires Routed(w, r) && CanPlug(w, PlugStation(s, h))
    ensures Routed(Apply(w, PlugStation(s, h)), r)
  {
    var v: Wires := Apply(w, PlugStation(s, h));
    forall u, p: nat | u in v && p < |v[u]| && v[u][p].Trunk?
      ensures TrunkGoesBack(v, u, p) && r.comp(v[u][p].sw) == r.comp(u)
    {
      assert TrunkGoesBack(w, u, p);
    }
    forall u, t, p: nat | u in v && t in v && r.comp(u) == r.comp(t) && p < |v[u]| && v[u][p].Trunk?
      ensures SwitchCrossingLaw(v, r, u, t, p)
    {
      assert SwitchCrossingLaw(w, r, u, t, p);
    }
  }

  lemma AddSwitchKeepsRoutes(w: Wires, r: Routes, s: SwitchId) returns (q: Routes)
    requires Routed(w, r) && CanPlug(w, AddSwitch(s))
    ensures Routed(Apply(w, AddSwitch(s)), q)
  {
    q := Routes(
      (u: SwitchId) => if u == s then s else r.comp(u),
      r.next,
      (u: SwitchId, t: SwitchId) => if u == s && t == s then 0 else r.dist(u, t));
    var v: Wires := Apply(w, AddSwitch(s));
    forall u, p: nat | u in v && p < |v[u]| && v[u][p].Trunk?
      ensures TrunkGoesBack(v, u, p) && q.comp(v[u][p].sw) == q.comp(u)
    {
      assert TrunkGoesBack(w, u, p);
    }
    forall u, t, p: nat | u in v && t in v && q.comp(u) == q.comp(t) && p < |v[u]| && v[u][p].Trunk?
      ensures SwitchCrossingLaw(v, q, u, t, p)
    {
      assert TrunkGoesBack(w, u, p) && SwitchCrossingLaw(w, r, u, t, p);
    }
  }

  lemma PlugKeepsRoutes(w: Wires, r: Routes, plug: Plug) returns (q: Routes)
    requires Routed(w, r) && CanPlug(w, plug)
    ensures Routed(Apply(w, plug), q)
  {
    match plug
    case AddSwitch(s) => q := AddSwitchKeepsRoutes(w, r, s);
    case PlugStation(s, h) => PlugStationKeepsRoutes(w, r, s, h); q := r;
    case PlugSwitches(a, b) => JoinKeepsRoutes(w, r, a, b); q := JoinedRoutes(r, a, |w[a]|, b, |w[b]|);
  }

  lemma PlugKeepsStationsOnce(w: Wires, plug: Plug)
    requires StationsOnce(w) && CanPlug(w, plug)
    ensures StationsOnce(Apply(w, plug))
  {
    var v: Wires := Apply(w, plug);
    forall s, p: nat, s', p': nat |
      s in v && p < |v[s]| && s' in v && p' < |v[s']| && v[s][p].Station? && v[s][p] == v[s'][p']
      ensures s == s' && p == p'
    {
      if plug.PlugStation? && v[s][p] == Station(plug.h) {
        assert !Plugged(w, plug.h);
      }
    }
  }

  lemma {:induction false} WiredIsRouted(history: seq<Wires>, k: nat) returns (r: Routes)
    requires IsWiring(history) && k < |history|
    ensures Routed(history[k], r) && StationsOnce(history[k])
  {
    if k == 0 {
      r := Routes((s: SwitchId) => s, (s: SwitchId, t: SwitchId) => 0, (s: SwitchId, t: SwitchId) => 0);
    } else {
      r := WiredIsRouted(history, k - 1);
      assert PlugStep(history[k - 1], history[k - 1 + 1]);
      var plug :| CanPlug(history[k - 1], plug) && history[k] == Apply(history[k - 1], plug);
      PlugKeepsStationsOnce(history[k - 1], plug);
      r := PlugKeepsRoutes(history[k - 1], r, plug);
    }
  }

  ghost function Stations(w: Wires): (hs: set<Mac>)
    ensures forall h :: h in hs <==> Plugged(w, h)
  {
    set s, p | s in w && 0 <= p < |w[s]| && w[s][p].Station? :: w[s][p].host
  }

  ghost function Attachment(w: Wires, h: Mac): (at: (SwitchId, nat))
    requires Plugged(w, h)
    ensures at.0 in w && at.1 < |w[at.0]| && w[at.0][at.1] == Station(h)
  {
    var s, p: nat :| s in w && p < |w[s]| && w[s][p] == Station(h);
    (s, p)
  }

  ghost function RoutedTopology(w: Wires, r: Routes): Topology {
    var attach := map h | h in Stations(w) :: Attachment(w, h);
    var Routes(_, next, dist) := r;
    Topology(w, attach,
      (s: SwitchId, h: Mac) =>
        if h !in attach then 0 else if s == attach[h].0 then attach[h].1 else next(s, attach[h].0),
      (s: SwitchId, h: Mac) => if h !in attach then 0 else dist(s, attach[h].0))
  }

  lemma RoutesObeyCrossingLaw(w: Wires, r: Routes, t: Topology, s: SwitchId, h: Mac, p: nat)
    requires Routed(w, r) && t == RoutedTopology(w, r) && forall a, b :: a in w && b in w ==> r.comp(a) == r.comp(b)
    requires s in w && h in t.attach && p < |w[s]| && w[s][p].Trunk?
    ensures CrossingLaw(t, s, h, p)
  {
    assert SwitchCrossingLaw(w, r, s, t.attach[h].0, p) && TrunkGoesBack(w, s, p);
  }

  lemma RoutedTopologyIsLoopFree(w: Wires, r: Routes)
    requires Routed(w, r) && StationsOnce(w)
    requires forall a, b :: a in w && b in w ==> r.comp(a) == r.comp(b)
    ensures LoopFree(RoutedTopology(w, r))
  {
    var t := RoutedTopology(w, r);
    assert BROADCAST_MAC !in t.attach;
    forall s, h, p: nat | s in t.ports && h in t.attach && p < |t.ports[s]| && t.ports[s][p].Trunk?
      ensures CrossingLaw(t, s, h, p)
    {
      RoutesObeyCrossingLaw(w, r, t, s, h, p);
    }
    forall s, p: nat | s in t.ports && p < |t.ports[s]| && t.ports[s][p].Station?
      ensures t.ports[s][p].host in t.attach && t.attach[t.ports[s][p].host] == (s, p)
    {
      assert Plugged(w, w[s][p].host);
    }
  }

  /** Every network wired without closing a loop, once all in one piece, satisfies the laws. */
  lemma WiredNetworkIsLoopFree(history: seq<Wires>) returns (t: Topology)
    requires IsWiring(history)
    requires var w := history[|history| - 1]; forall a, b :: a in w && b in w ==> Connected(w, a, b)
    ensures t.ports == history[|history| - 1] && LoopFree(t)
    ensures forall h :: h in t.attach <==> Plugged(t.ports, h)
  {
    var w := history[|history| - 1];
    var r := WiredIsRouted(history, |history| - 1);
    forall a, b | a in w && b in w
      ensures r.comp(a) == r.comp(b)
    {
      assert Connected(w, a, b);
      var path :| IsPath(w, path, a, b);
      PathStaysInPiece(w, r, path, a, b);
    }
    RoutedTopologyIsLoopFree(w, r);
    t := RoutedTopology(w, r);
  }
}
