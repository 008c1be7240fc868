/** The l2_multi component: all-pairs shortest paths by an in-place relaxation, paths rebuilt from the
    stored intermediates, and a path cache that link events invalidate. */
module ShortestPaths {
  import opened Wrappers

  type Switch = nat
  type Port = nat
  type Pair = (Switch, Switch)

  /** The port that leads from the first switch to the second. */
  type Adjacency = map<Pair, Port>

  datatype Entry = Entry(distance: nat, via: Option<Switch>)

  /** A missing pair stands for the source's (None, None). */
  type PathMap = map<Pair, Entry>

  // ----- Walks ----------------------------------------------------------------------------------

  ghost predicate IsWalk(adj: Adjacency, i: Switch, j: Switch, p: seq<Switch>) {
    && p != [] && p[0] == i && p[|p| - 1] == j
    && forall t :: 0 <= t < |p| - 1 ==> (p[t], p[t + 1]) in adj
  }

  ghost predicate HasWalk(adj: Adjacency, i: Switch, j: Switch, d: nat) {
    exists p :: IsWalk(adj, i, j, p) && |p| == d + 1
  }

  ghost predicate IsShortest(adj: Adjacency, i: Switch, j: Switch, d: nat) {
    HasWalk(adj, i, j, d) && forall p :: IsWalk(adj, i, j, p) ==> d <= |p| - 1
  }

  lemma JoinWalks(adj: Adjacency, i: Switch, k: Switch, j: Switch, p: seq<Switch>, q: seq<Switch>)
    requires IsWalk(adj, i, k, p) && IsWalk(adj, k, j, q)
    ensures IsWalk(adj, i, j, p + q[1..])
  {
    var w := p + q[1..];
    forall t | 0 <= t < |w| - 1
      ensures (w[t], w[t + 1]) in adj
    {
      if t >= |p| - 1 {
        assert w[t] == q[t - |p| + 1] && w[t + 1] == q[t - |p| + 2];
      }
    }
  }

  lemma HasWalkJoin(adj: Adjacency, i: Switch, k: Switch, j: Switch, a: nat, b: nat)
    requires HasWalk(adj, i, k, a) && HasWalk(adj, k, j, b)
    ensures HasWalk(adj, i, j, a + b)
  {
    var p :| IsWalk(adj, i, k, p) && |p| == a + 1;
    var q :| IsWalk(adj, k, j, q) && |q| == b + 1;
    JoinWalks(adj, i, k, j, p, q);
  }

  lemma SubWalk(adj: Adjacency, i: Switch, j: Switch, p: seq<Switch>, s: nat, t: nat)
    requires IsWalk(adj, i, j, p) && s <= t < |p|
    ensures IsWalk(adj, p[s], p[t], p[s..t + 1])
  {
  }

  ghost predicate InteriorIn(p: seq<Switch>, ks: set<Switch>) {
    forall t :: 0 < t < |p| - 1 ==> p[t] in ks
  }

  // ----- Relaxation -----------------------------------------------------------------------------

  /** The map knows a path at least as short as every walk from i to j with its interior in ks. */
  ghost predicate Covers(adj: Adjacency, pm: PathMap, ks: set<Switch>, i: Switch, j: Switch) {
    forall p :: IsWalk(adj, i, j, p) && InteriorIn(p, ks) ==> (i, j) in pm && pm[(i, j)].distance <= |p| - 1
  }

  ghost predicate Sound(adj: Adjacency, pm: PathMap) {
    forall i, j :: (i, j) in pm ==> HasWalk(adj, i, j, pm[(i, j)].distance)
  }

  /** Direct entries are edges; an entry by way of k is no shorter than its two halves together. */
  predicate EntryOk(adj: Adjacency, pm: PathMap, i: Switch, j: Switch)
    requires (i, j) in pm
  {
    match pm[(i, j)].via
    case None => if i == j then pm[(i, j)].distance == 0 else pm[(i, j)].distance == 1 && (i, j) in adj
    case Some(k) =>
      && i != j && k != i && k != j && (i, k) in pm && (k, j) in pm
      && pm[(i, k)].distance + pm[(k, j)].distance <= pm[(i, j)].distance
  }

  ghost predicate EntriesOk(adj: Adjacency, pm: PathMap) {
    forall i, j :: (i, j) in pm ==> EntryOk(adj, pm, i, j)
  }

  ghost predicate SelfZero(pm: PathMap, sws: seq<Switch>) {
    forall i :: i in sws ==> (i, i) in pm && pm[(i, i)].distance == 0
  }

  ghost predicate Lowers(pm: PathMap, pm': PathMap) {
    forall x :: x in pm ==> x in pm' && pm'[x].distance <= pm[x].distance
  }

  ghost predicate Good(adj: Adjacency, pm: PathMap, sws: seq<Switch>) {
    Sound(adj, pm) && EntriesOk(adj, pm) && SelfZero(pm, sws)
  }

  /** One update of the innermost loop. */
  function Relax(pm: PathMap, k: Switch, i: Switch, j: Switch): PathMap {
    if (i, k) in pm && (k, j) in pm then
      var d := pm[(i, k)].distance + pm[(k, j)].distance;
      if (i, j) !in pm || d < pm[(i, j)].distance then pm[(i, j) := Entry(d, Some(k))] else pm
    else pm
  }

  lemma LowerKeepsEntry(adj: Adjacency, pm: PathMap, pm': PathMap, a: Switch, b: Switch)
    requires (a, b) in pm && EntryOk(adj, pm, a, b) && Lowers(pm, pm') && pm'[(a, b)] == pm[(a, b)]
    ensures EntryOk(adj, pm', a, b)
  {
  }

  lemma RelaxSound(adj: Adjacency, pm: PathMap, k: Switch, i: Switch, j: Switch)
    requires Sound(adj, pm)
    ensures Sound(adj, Relax(pm, k, i, j)) && Lowers(pm, Relax(pm, k, i, j))
  {
    hide HasWalk;
    if (i, k) in pm && (k, j) in pm {
      HasWalkJoin(adj, i, k, j, pm[(i, k)].distance, pm[(k, j)].distance);
    }
  }

  lemma RelaxApart(pm: PathMap, sws: seq<Switch>, k: Switch, i: Switch, j: Switch)
    requires SelfZero(pm, sws) && i in sws && j in sws && Relax(pm, k, i, j) != pm
    ensures k != i && k != j && i != j
  {
  }

  lemma RelaxEntries(adj: Adjacency, pm: PathMap, k: Switch, i: Switch, j: Switch)
    requires EntriesOk(adj, pm) && Lowers(pm, Relax(pm, k, i, j))
    requires Relax(pm, k, i, j) != pm && k != i && k != j && i != j
    ensures EntriesOk(adj, Relax(pm, k, i, j))
  {
    var pm' := Relax(pm, k, i, j);
    forall a: Switch, b: Switch | (a, b) in pm'
      ensures EntryOk(adj, pm', a, b)
    {
      if (a, b) != (i, j) {
        hide EntryOk;
        LowerKeepsEntry(adj, pm, pm', a, b);
      }
    }
  }

  lemma RelaxKeepsGood(adj: Adjacency, pm: PathMap, sws: seq<Switch>, k: Switch, i: Switch, j: Switch)
    requires Good(adj, pm, sws) && k in sws && i in sws && j in sws
    ensures Good(adj, Relax(pm, k, i, j), sws) && Lowers(pm, Relax(pm, k, i, j))
  {
    RelaxSound(adj, pm, k, i, j);
    hide Sound, EntriesOk;
    if Relax(pm, k, i, j) != pm {
      RelaxApart(pm, sws, k, i, j);
      RelaxEntries(adj, pm, k, i, j);
    }
  }

  lemma CoversLower(adj: Adjacency, pm: PathMap, pm': PathMap, ks: set<Switch>, i: Switch, j: Switch)
    requires Covers(adj, pm, ks, i, j) && Lowers(pm, pm')
    ensures Covers(adj, pm', ks, i, j)
  {
  }

  /** The first and the last visit to k cut a walk into a part before, a detour, and a part after. */
  lemma {:induction false} FirstVisit(p: seq<Switch>, k: Switch, t: nat) returns (s: nat)
    requires 0 < t < |p| - 1 && p[t] == k
    ensures 0 < s <= t && p[s] == k && forall u :: 0 < u < s ==> p[u] != k
    decreases t
  {
    if u :| 0 < u < t && p[u] == k {
      s := FirstVisit(p, k, u);
    } else {
      s := t;
    }
  }

  lemma {:induction false} LastVisit(p: seq<Switch>, k: Switch, t: nat) returns (s: nat)
    requires 0 < t < |p| - 1 && p[t] == k
    ensures t <= s < |p| - 1 && p[s] == k && forall u :: s < u < |p| - 1 ==> p[u] != k
    decreases |p| - t
  {
    if u :| t < u < |p| - 1 && p[u] == k {
      s := LastVisit(p, k, u);
    } else {
      s := t;
    }
  }

  /** The heart of the algorithm: relaxing a pair over k makes it cover the walks through k as well. It
      needs the values of (i, k) and (k, j) only to cover what they covered before the round, so it
      does not matter that they are being updated in place. */
  lemma RelaxCovers(adj: Adjacency, pm: PathMap, ks: set<Switch>, k: Switch, i: Switch, j: Switch)
    requires Covers(adj, pm, ks, i, j) && Covers(adj, pm, ks, i, k) && Covers(adj, pm, ks, k, j)
    ensures Covers(adj, Relax(pm, k, i, j), ks + {k}, i, j)
  {
    var pm' := Relax(pm, k, i, j);
    forall p | IsWalk(adj, i, j, p) && InteriorIn(p, ks + {k})
      ensures (i, j) in pm' && pm'[(i, j)].distance <= |p| - 1
    {
      if t :| 0 < t < |p| - 1 && p[t] == k {
        var s := FirstVisit(p, k, t);
        var e := LastVisit(p, k, t);
        var before, after := p[0..s + 1], p[e..|p| - 1 + 1];
        SubWalk(adj, i, j, p, 0, s);
        SubWalk(adj, i, j, p, e, |p| - 1);
        assert InteriorIn(before, ks) && InteriorIn(after, ks);
        assert pm[(i, k)].distance <= s && pm[(k, j)].distance <= |p| - 1 - e;
      } else {
        assert InteriorIn(p, ks);
      }
    }
  }

  // ----- What the finished map means ------------------------------------------------------------

  /** Exact distances, no entry for unreachable pairs, and every stored intermediate splits its pair
      into two strictly shorter pairs of positive distance that add up. */
  ghost predicate Current(adj: Adjacency, pm: PathMap) {
    && EntriesOk(adj, pm)
    && (forall i, j :: (i, j) in pm ==> IsShortest(adj, i, j, pm[(i, j)].distance))
    && (forall i: Switch, j: Switch, p :: i != j && IsWalk(adj, i, j, p) ==> (i, j) in pm)
  }

  lemma SplitsExactly(adj: Adjacency, pm: PathMap, i: Switch, j: Switch)
    requires Current(adj, pm) && (i, j) in pm && pm[(i, j)].via.Some?
    ensures var k := pm[(i, j)].via.value;
            && (i, k) in pm && (k, j) in pm
            && 0 < pm[(i, k)].distance < pm[(i, j)].distance && 0 < pm[(k, j)].distance < pm[(i, j)].distance
            && pm[(i, k)].distance + pm[(k, j)].distance == pm[(i, j)].distance
  {
    assert EntryOk(adj, pm, i, j);
    var k := pm[(i, j)].via.value;
    NonZero(adj, pm, i, k);
    NonZero(adj, pm, k, j);
    HasWalkJoin(adj, i, k, j, pm[(i, k)].distance, pm[(k, j)].distance);
  }

  lemma NonZero(adj: Adjacency, pm: PathMap, i: Switch, j: Switch)
    requires Current(adj, pm) && (i, j) in pm && i != j
    ensures pm[(i, j)].distance > 0
  {
    var p :| IsWalk(adj, i, j, p) && |p| == pm[(i, j)].distance + 1;
  }

  ghost predicate Splits(pm: PathMap) {
    forall i, j :: (i, j) in pm && pm[(i, j)].via.Some? ==>
      var k := pm[(i, j)].via.value;
      && (i, k) in pm && (k, j) in pm
      && pm[(i, k)].distance < pm[(i, j)].distance && pm[(k, j)].distance < pm[(i, j)].distance
  }

  lemma CurrentSplits(adj: Adjacency, pm: PathMap)
    requires Current(adj, pm)
    ensures Splits(pm)
  {
    forall i, j | (i, j) in pm && pm[(i, j)].via.Some?
      ensures var k := pm[(i, j)].via.value;
              && (i, k) in pm && (k, j) in pm
              && pm[(i, k)].distance < pm[(i, j)].distance && pm[(k, j)].distance < pm[(i, j)].distance
    {
      SplitsExactly(adj, pm, i, j);
    }
  }

  /** The switches strictly between src and dst, rebuilt from the intermediates. */
  function RawPath(pm: PathMap, src: Switch, dst: Switch): Option<seq<Switch>>
    requires Splits(pm)
    decreases if (src, dst) in pm then pm[(src, dst)].distance else 0
  {
    if src == dst then Some([])
    else if (src, dst) !in pm then None
    else
      match pm[(src, dst)].via
      case None => Some([])
      case Some(k) =>
        match (RawPath(pm, src, k), RawPath(pm, k, dst))
        case (Some(a), Some(b)) => Some(a + [k] + b)
        case _ => None
  }

  lemma JoinVia(adj: Adjacency, i: Switch, k: Switch, j: Switch, a: seq<Switch>, b: seq<Switch>)
    requires IsWalk(adj, i, k, [i] + a + [k]) && IsWalk(adj, k, j, [k] + b + [j])
    ensures IsWalk(adj, i, j, [i] + (a + [k] + b) + [j])
  {
    JoinWalks(adj, i, k, j, [i] + a + [k], [k] + b + [j]);
    assert [i] + (a + [k] + b) + [j] == ([i] + a + [k]) + ([k] + b + [j])[1..];
  }

  lemma DirectEntry(adj: Adjacency, pm: PathMap, i: Switch, j: Switch)
    requires Current(adj, pm) && (i, j) in pm && i != j && pm[(i, j)].via.None?
    ensures IsWalk(adj, i, j, [i] + [] + [j]) && pm[(i, j)].distance == 1
  {
    assert EntryOk(adj, pm, i, j);
  }

  lemma ViaApart(adj: Adjacency, pm: PathMap, i: Switch, j: Switch)
    requires Current(adj, pm) && (i, j) in pm && pm[(i, j)].via.Some?
    ensures pm[(i, j)].via.value != i && pm[(i, j)].via.value != j
  {
    assert EntryOk(adj, pm, i, j);
  }

  /** The rebuilt path is a walk of exactly the stored distance. */
  lemma {:induction false} RawPathIsWalk(adj: Adjacency, pm: PathMap, src: Switch, dst: Switch)
    requires Current(adj, pm) && Splits(pm) && src != dst && (src, dst) in pm
    ensures RawPath(pm, src, dst).Some?
    ensures var raw := RawPath(pm, src, dst).value;
            IsWalk(adj, src, dst, [src] + raw + [dst]) && |raw| + 1 == pm[(src, dst)].distance
    decreases pm[(src, dst)].distance
  {
    hide Current, IsWalk, Splits;
    match pm[(src, dst)].via
    case None => DirectEntry(adj, pm, src, dst);
    case Some(k) =>
      SplitsExactly(adj, pm, src, dst);
      ViaApart(adj, pm, src, dst);
      RawPathIsWalk(adj, pm, src, k);
      RawPathIsWalk(adj, pm, k, dst);
      JoinVia(adj, src, k, dst, RawPath(pm, src, k).value, RawPath(pm, k, dst).value);
  }

  /** No path is reported exactly when there is none. */
  lemma RawPathNone(adj: Adjacency, pm: PathMap, src: Switch, dst: Switch)
    requires Current(adj, pm) && Splits(pm) && src != dst
    ensures RawPath(pm, src, dst).None? <==> !exists p :: IsWalk(adj, src, dst, p)
    ensures RawPath(pm, src, src) == Some([])
  {
    if (src, dst) in pm {
      RawPathIsWalk(adj, pm, src, dst);
    }
  }

  // ----- The component --------------------------------------------------------------------------

  datatype Link = Link(dpid1: Switch, port1: Port, dpid2: Switch, port2: Port)

  function Flip(l: Link): Link {
    Link(l.dpid2, l.port2, l.dpid1, l.port1)
  }

  /** One step of a cooked path. */
  datatype Hop = Hop(node: Switch, inPort: Option<Port>, outPort: Option<Port>)

  function PortTo(adj: Adjacency, a: Switch, b: Switch): Option<Port> {
    if (a, b) in adj then Some(adj[(a, b)]) else None
  }

  predicate HopsFit(adj: Adjacency, p: seq<Hop>, t: nat)
    requires t + 1 < |p|
  {
    && PortTo(adj, p[t].node, p[t + 1].node) == p[t].outPort
    && PortTo(adj, p[t + 1].node, p[t].node) == p[t + 1].inPort
  }

  /** The first hop's out port is the adjacency's to the second, and none if that names none. */
  predicate LeadsTo(adj: Adjacency, h: Hop, next: Hop) {
    && (h.outPort.Some? ==> (h.node, next.node) in adj && adj[(h.node, next.node)] == h.outPort.value)
    && (h.outPort.None? ==> (h.node, next.node) !in adj)
  }

  /** The second hop's in port is the adjacency's back to the first, and none if that names none. */
  predicate ComesFrom(adj: Adjacency, h: Hop, next: Hop) {
    && (next.inPort.Some? ==> (next.node, h.node) in adj && adj[(next.node, h.node)] == next.inPort.value)
    && (next.inPort.None? ==> (next.node, h.node) !in adj)
  }

  lemma HopsMean(adj: Adjacency, p: seq<Hop>)
    ensures forall t: nat :: t + 1 < |p| ==>
              (HopsFit(adj, p, t) <==> LeadsTo(adj, p[t], p[t + 1]) && ComesFrom(adj, p[t], p[t + 1]))
  {
  }

  predicate PathOk(adj: Adjacency, p: seq<Hop>) {
    forall t :: 0 <= t < |p| - 1 ==> HopsFit(adj, p, t)
  }

  ghost predicate Symmetric(adj: Adjacency) {
    forall a, b :: (a, b) in adj ==> (b, a) in adj
  }

  function SetOf(sws: seq<Switch>): set<Switch> {
    set x | x in sws
  }

  ghost predicate EndsIn(adj: Adjacency, sws: seq<Switch>) {
    forall a, b :: (a, b) in adj ==> a in sws && b in sws
  }

  lemma WalkInside(adj: Adjacency, sws: seq<Switch>, i: Switch, j: Switch, p: seq<Switch>)
    requires EndsIn(adj, sws) && IsWalk(adj, i, j, p) && |p| > 1
    ensures forall t :: 0 <= t < |p| ==> p[t] in sws
  {
    forall t | 0 <= t < |p|
      ensures p[t] in sws
    {
      if t > 0 {
        assert (p[t - 1], p[t - 1 + 1]) in adj;
      } else {
        assert (p[0], p[0 + 1]) in adj;
      }
    }
  }

  lemma InteriorInside(adj: Adjacency, sws: seq<Switch>, i: Switch, j: Switch, p: seq<Switch>)
    requires EndsIn(adj, sws) && IsWalk(adj, i, j, p)
    ensures InteriorIn(p, SetOf(sws)) && (i != j ==> i in sws && j in sws)
  {
    if |p| > 1 {
      WalkInside(adj, sws, i, j, p);
    }
  }

  /** A good map that covers every pair is exact. */
  lemma CoveringIsCurrent(adj: Adjacency, pm: PathMap, sws: seq<Switch>)
    requires Good(adj, pm, sws) && EndsIn(adj, sws)
    requires KeysIn(pm, sws) && AllCover(adj, pm, sws, SetOf(sws))
    ensures Current(adj, pm)
  {
    forall i: Switch, j: Switch, p | IsWalk(adj, i, j, p) && i in sws && j in sws
      ensures (i, j) in pm && pm[(i, j)].distance <= |p| - 1
    {
      InteriorInside(adj, sws, i, j, p);
      assert Covers(adj, pm, SetOf(sws), i, j);
    }
    forall i: Switch, j: Switch, p | i != j && IsWalk(adj, i, j, p)
      ensures (i, j) in pm
    {
      InteriorInside(adj, sws, i, j, p);
    }
    forall i: Switch, j: Switch | (i, j) in pm
      ensures IsShortest(adj, i, j, pm[(i, j)].distance)
    {
      assert (i, j).0 in sws && (i, j).1 in sws;
      assert HasWalk(adj, i, j, pm[(i, j)].distance);
    }
  }

  /** All pairs over the listed switches cover the walks through ks. */
  ghost predicate AllCover(adj: Adjacency, pm: PathMap, sws: seq<Switch>, ks: set<Switch>) {
    forall i, j :: i in sws && j in sws ==> Covers(adj, pm, ks, i, j)
  }

  /** Only pairs of listed switches have entries. */
  ghost predicate KeysIn(pm: PathMap, sws: seq<Switch>) {
    forall x :: x in pm ==> x.0 in sws && x.1 in sws
  }

  /** Round k, up to row a and column b: everything still covers what it covered before the round, and
      the pairs already visited cover the walks through k too. */
  ghost predicate Round(adj: Adjacency, pm: PathMap, sws: seq<Switch>, ks: set<Switch>, k: Switch, a: nat, b: nat)
    requires a <= |sws| && b <= |sws| && (b > 0 ==> a < |sws|)
  {
    && Good(adj, pm, sws) && KeysIn(pm, sws) && AllCover(adj, pm, sws, ks)
    && (forall i, j :: i in sws[..a] && j in sws ==> Covers(adj, pm, ks + {k}, i, j))
    && (b > 0 ==> forall j :: j in sws[..b] ==> Covers(adj, pm, ks + {k}, sws[a], j))
  }

  lemma RoundStep(adj: Adjacency, pm: PathMap, sws: seq<Switch>, ks: set<Switch>, k: Switch, a: nat, b: nat)
    requires a < |sws| && b < |sws| && k in sws
    requires Round(adj, pm, sws, ks, k, a, b)
    ensures Round(adj, Relax(pm, k, sws[a], sws[b]), sws, ks, k, a, b + 1)
  {
    hide Good, Covers, Lowers;
    var i, j := sws[a], sws[b];
    var pm' := Relax(pm, k, i, j);
    RelaxKeepsGood(adj, pm, sws, k, i, j);
    RelaxCovers(adj, pm, ks, k, i, j);
    forall x, y, K | Covers(adj, pm, K, x, y)
      ensures Covers(adj, pm', K, x, y)
    {
      CoversLower(adj, pm, pm', K, x, y);
    }
  }

  /** Entries before the first round: the edges and the switches themselves. */
  ghost predicate Initial(adj: Adjacency, pm: PathMap, done: seq<Switch>) {
    && (forall i: Switch, j: Switch :: (i, j) in pm <==> i in done && (i == j || (i, j) in adj))
    && (forall i: Switch, j: Switch :: (i, j) in pm ==> pm[(i, j)] == Entry(if i == j then 0 else 1, None))
  }

  lemma ShortInterior(p: seq<Switch>)
    requires InteriorIn(p, {})
    ensures |p| <= 2
  {
    if |p| > 1 {
      var second := p[1];
    }
  }

  lemma InitialRound(adj: Adjacency, pm: PathMap, sws: seq<Switch>)
    requires Initial(adj, pm, sws) && EndsIn(adj, sws)
    ensures Good(adj, pm, sws) && KeysIn(pm, sws) && AllCover(adj, pm, sws, {})
  {
    forall i: Switch, j: Switch | (i, j) in pm
      ensures HasWalk(adj, i, j, pm[(i, j)].distance)
    {
      var p := if i == j then [i] else [i, j];
      assert IsWalk(adj, i, j, p);
    }
    forall i: Switch, j: Switch, p | i in sws && j in sws && IsWalk(adj, i, j, p) && InteriorIn(p, {})
      ensures (i, j) in pm && pm[(i, j)].distance <= |p| - 1
    {
      if |p| == 2 {
        assert (p[0], p[0 + 1]) in adj;
      } else {
        ShortInterior(p);
      }
    }
  }

  class L2Multi {
    var switches: seq<Switch>
    var adjacency: Adjacency
    var pathMap: PathMap

    /** Two switches are connected both ways or not at all, and the path cache is empty or current. */
    ghost predicate Valid()
      reads this
    {
      Symmetric(adjacency) && EndsIn(adjacency, switches) && (pathMap == map[] || Current(adjacency, pathMap))
    }

    constructor ()
      ensures Valid() && switches == [] && adjacency == map[] && pathMap == map[]
    {
      switches, adjacency, pathMap := [], map[], map[];
    }

    method EnterNeighbours(k: Switch)
      requires EndsIn(adjacency, switches)
      modifies this`pathMap
      ensures forall i: Switch, j: Switch :: (i, j) in pathMap <==>
                (i, j) in old(pathMap) || (i == k && (i == j || (i, j) in adjacency))
      ensures forall i: Switch, j: Switch :: (i, j) in pathMap ==>
                pathMap[(i, j)] == if i != k then old(pathMap)[(i, j)]
                                   else if i == j then Entry(0, None)
                                   else if (i, j) in adjacency then Entry(1, None) else old(pathMap)[(i, j)]
    {
      ghost var pm := pathMap;
      for n := 0 to |switches|
        invariant forall i: Switch, j: Switch :: (i, j) in pathMap <==>
                    (i, j) in pm || (i == k && j in switches[..n] && (i, j) in adjacency)
        invariant forall i: Switch, j: Switch :: (i, j) in pathMap ==>
                    pathMap[(i, j)] == if i == k && j in switches[..n] && (i, j) in adjacency then Entry(1, None)
                                       else pm[(i, j)]
      {
        var j := switches[n];
        if (k, j) in adjacency {
          pathMap := pathMap[(k, j) := Entry(1, None)];
        }
      }
      assert switches[..|switches|] == switches;
      pathMap := pathMap[(k, k) := Entry(0, None)];
    }

    method EnterEdges()
      requires EndsIn(adjacency, switches)
      modifies this`pathMap
      ensures Initial(adjacency, pathMap, switches)
    {
      pathMap := map[];
      for n := 0 to |switches|
        invariant Initial(adjacency, pathMap, switches[..n])
      {
        EnterNeighbours(switches[n]);
        assert switches[..n + 1] == switches[..n] + [switches[n]];
      }
      assert switches[..|switches|] == switches;
    }

    /** Floyd-Warshall in place. */
    method CalcPaths()
      requires EndsIn(adjacency, switches)
      modifies this`pathMap
      ensures Current(adjacency, pathMap)
      ensures KeysIn(pathMap, switches) && SelfZero(pathMap, switches)
    {
      var sws := switches;
      EnterEdges();
      InitialRound(adjacency, pathMap, sws);
      hide Good, KeysIn, Covers, Current, EndsIn, Symmetric, SelfZero;
      assert SetOf(sws[..0]) == {};
      for n := 0 to |sws|
        invariant Good(adjacency, pathMap, sws) && KeysIn(pathMap, sws)
        invariant AllCover(adjacency, pathMap, sws, SetOf(sws[..n]))
      {
        assert SetOf(sws[..n + 1]) == SetOf(sws[..n]) + {sws[n]};
        RelaxOver(sws[n], SetOf(sws[..n]));
      }
      assert sws[..|sws|] == sws;
      GoodSelfZero(adjacency, pathMap, sws);
      CoveringIsCurrent(adjacency, pathMap, sws);
    }

    /** One round of the outermost loop. */
    method RelaxOver(k: Switch, ghost ks: set<Switch>)
      requires k in switches
      requires Good(adjacency, pathMap, switches) && KeysIn(pathMap, switches)
      requires AllCover(adjacency, pathMap, switches, ks)
      modifies this`pathMap
      ensures Good(adjacency, pathMap, switches) && KeysIn(pathMap, switches)
      ensures AllCover(adjacency, pathMap, switches, ks + {k})
    {
      hide Good, KeysIn, Covers;
      for a := 0 to |switches|
        invariant Round(adjacency, pathMap, switches, ks, k, a, 0)
      {
        for b := 0 to |switches|
          invariant Round(adjacency, pathMap, switches, ks, k, a, b)
        {
          var i, j := switches[a], switches[b];
          RoundStep(adjacency, pathMap, switches, ks, k, a, b);
          if (i, k) in pathMap {
            if (k, j) in pathMap {
              var ikjDist := pathMap[(i, k)].distance + pathMap[(k, j)].distance;
              if (i, j) !in pathMap || ikjDist < pathMap[(i, j)].distance {
                pathMap := pathMap[(i, j) := Entry(ikjDist, Some(k))];
              }
            }
          }
        }
        RowDone(adjacency, pathMap, switches, ks, k, a);
      }
      assert switches[..|switches|] == switches;
    }

    /** The raw path from the cache, filled first if it is empty. */
    method GetRawPath(src: Switch, dst: Switch) returns (raw: Option<seq<Switch>>)
      requires Valid()
      modifies this`pathMap
      ensures Valid() && Current(adjacency, pathMap)
      ensures Splits(pathMap) && raw == RawPath(pathMap, src, dst)
    {
      if |pathMap| == 0 {
        CalcPaths();
      }
      CurrentSplits(adjacency, pathMap);
      raw := RawPath(pathMap, src, dst);
    }

    method CheckPath(p: seq<Hop>) returns (ok: bool)
      ensures ok <==> forall t :: 0 <= t < |p| - 1 ==>
                        LeadsTo(adjacency, p[t], p[t + 1]) && ComesFrom(adjacency, p[t], p[t + 1])
    {
      HopsMean(adjacency, p);
      var t := 0;
      while t < |p| - 1
        invariant 0 <= t
        invariant forall u :: 0 <= u < t && u < |p| - 1 ==> HopsFit(adjacency, p, u)
      {
        if PortTo(adjacency, p[t].node, p[t + 1].node) != p[t].outPort {
          assert !HopsFit(adjacency, p, t);
          return false;
        }
        if PortTo(adjacency, p[t + 1].node, p[t].node) != p[t + 1].inPort {
          assert !HopsFit(adjacency, p, t);
          return false;
        }
        t := t + 1;
      }
      return true;
    }

    /** The cooked path: no path exactly when no walk exists, otherwise a shortest walk with the ports
        the adjacency gives, entered and left by the given outer ports; the sanity check passes. */
    method GetPath(src: Switch, dst: Switch, firstPort: Port, finalPort: Port) returns (path: Option<seq<Hop>>)
      requires Valid()
      modifies this`pathMap
      ensures Valid()
      ensures path.None? <==> !exists p :: IsWalk(adjacency, src, dst, p)
      ensures path.Some? ==> IsCooked(adjacency, src, dst, firstPort, finalPort, path.value)
      ensures path.Some? ==>
                var r := path.value;
                forall t :: 0 <= t < |r| - 1 ==>
                  var there, back := (r[t].node, r[t + 1].node), (r[t + 1].node, r[t].node);
                  && there in adjacency && r[t].outPort == Some(adjacency[there])
                  && back in adjacency && r[t + 1].inPort == Some(adjacency[back])
    {
      var nodes: seq<Switch>;
      if src == dst {
        nodes := [src];
        assert IsWalk(adjacency, src, dst, nodes);
      } else {
        var raw := GetRawPath(src, dst);
        RawPathNone(adjacency, pathMap, src, dst);
        if raw.None? {
          return None;
        }
        RawPathIsWalk(adjacency, pathMap, src, dst);
        nodes := [src] + raw.value + [dst];
      }
      assert ShortestNodes(adjacency, src, dst, nodes);
      var r := Cook(nodes, firstPort, finalPort);
      var ok := CheckPath(r);
      CookedOk(adjacency, src, dst, nodes, firstPort, finalPort, r);
      HopsMean(adjacency, r);
      CookedPorts(adjacency, src, dst, firstPort, finalPort, r);
      assert ok;
      path := Some(r);
    }

    method Cook(nodes: seq<Switch>, firstPort: Port, finalPort: Port) returns (r: seq<Hop>)
      requires nodes != []
      ensures Cooked(adjacency, nodes, firstPort, finalPort, r)
    {
      r := [];
      var inPort := Some(firstPort);
      for t := 0 to |nodes| - 1
        invariant |r| == t
        invariant inPort == InPort(adjacency, nodes, firstPort, t)
        invariant forall u :: 0 <= u < t ==> r[u] == HopAt(adjacency, nodes, firstPort, finalPort, u)
      {
        var outPort := PortTo(adjacency, nodes[t], nodes[t + 1]);
        r := r + [Hop(nodes[t], inPort, outPort)];
        inPort := PortTo(adjacency, nodes[t + 1], nodes[t]);
      }
      r := r + [Hop(nodes[|nodes| - 1], inPort, Some(finalPort))];
    }

    /** A link between known switches came up or went down. The cache is emptied; on removal another
        bidirectional link between the same two switches takes over if discovery knows one. */
    method HandleLinkEvent(l: Link, removed: bool, discovered: seq<Link>)
      requires Valid() && l.dpid1 in switches && l.dpid2 in switches
      modifies this`adjacency, this`pathMap
      ensures Valid() && pathMap == map[]
      ensures var e := if removed then Replacement(l, discovered)
                       else if Flip(l) in discovered then Some(l) else None;
              adjacency ==
              if !removed && (l.dpid1, l.dpid2) in old(adjacency) then old(adjacency)
              else
                var rest := old(adjacency) - {(l.dpid1, l.dpid2), (l.dpid2, l.dpid1)};
                if e.None? then rest
                else rest[(l.dpid1, l.dpid2) := e.value.port1][(l.dpid2, l.dpid1) := e.value.port2]
    {
      var sw1, sw2 := l.dpid1, l.dpid2;
      pathMap := map[];
      if removed {
        adjacency := adjacency - {(sw1, sw2)};
        adjacency := adjacency - {(sw2, sw1)};
        ghost var rest := adjacency;
        assert discovered[0..] == discovered;
        for n := 0 to |discovered|
          invariant adjacency == rest
          invariant FirstReplacement(l, discovered, discovered) == FirstReplacement(l, discovered[n..], discovered)
        {
          var ll := discovered[n];
          assert discovered[n..][1..] == discovered[n + 1..];
          if ll != l && ll.dpid1 == l.dpid1 && ll.dpid2 == l.dpid2 && Flip(ll) in discovered {
            adjacency := adjacency[(sw1, sw2) := ll.port1];
            adjacency := adjacency[(sw2, sw1) := ll.port2];
            break;
          }
        }
      } else if (sw1, sw2) !in adjacency {
        if Flip(l) in discovered {
          adjacency := adjacency[(sw1, sw2) := l.port1];
          adjacency := adjacency[(sw2, sw1) := l.port2];
        }
      }
    }

    /** A new switch brings no links, so a filled cache stays current without it. */
    method HandleConnectionUp(dpid: Switch)
      requires Valid()
      modifies this`switches
      ensures Valid()
      ensures switches == if dpid in old(switches) then old(switches) else old(switches) + [dpid]
    {
      if dpid !in switches {
        switches := switches + [dpid];
      }
    }
  }

  /** The first other discovered link between the same switches whose reverse is discovered as well. */
  function FirstReplacement(l: Link, candidates: seq<Link>, discovered: seq<Link>): Option<Link> {
    if candidates == [] then None
    else
      var ll := candidates[0];
      if ll != l && ll.dpid1 == l.dpid1 && ll.dpid2 == l.dpid2 && Flip(ll) in discovered then Some(ll)
      else FirstReplacement(l, candidates[1..], discovered)
  }

  function Replacement(l: Link, discovered: seq<Link>): Option<Link> {
    FirstReplacement(l, discovered, discovered)
  }

  function InPort(adj: Adjacency, nodes: seq<Switch>, firstPort: Port, t: nat): Option<Port>
    requires t < |nodes|
  {
    if t == 0 then Some(firstPort) else PortTo(adj, nodes[t], nodes[t - 1])
  }

  /** Node u with its ports: in from the previous node, out to the next one. */
  function HopAt(adj: Adjacency, nodes: seq<Switch>, firstPort: Port, finalPort: Port, u: nat): Hop
    requires u < |nodes|
  {
    Hop(nodes[u], InPort(adj, nodes, firstPort, u),
        if u + 1 < |nodes| then PortTo(adj, nodes[u], nodes[u + 1]) else Some(finalPort))
  }

  predicate Cooked(adj: Adjacency, nodes: seq<Switch>, firstPort: Port, finalPort: Port, r: seq<Hop>) {
    |r| == |nodes| && forall u :: 0 <= u < |r| ==> r[u] == HopAt(adj, nodes, firstPort, finalPort, u)
  }

  ghost predicate ShortestNodes(adj: Adjacency, src: Switch, dst: Switch, nodes: seq<Switch>) {
    IsWalk(adj, src, dst, nodes) && forall p :: IsWalk(adj, src, dst, p) ==> |nodes| <= |p|
  }

  /** A shortest walk from src to dst over defined ports only, from the first to the final port. */
  ghost predicate IsCooked(adj: Adjacency, src: Switch, dst: Switch, firstPort: Port, finalPort: Port, r: seq<Hop>) {
    && r != [] && r[0].inPort == Some(firstPort) && r[|r| - 1].outPort == Some(finalPort)
    && PathOk(adj, r) && (forall t :: 0 <= t < |r| ==> r[t].inPort.Some? && r[t].outPort.Some?)
    && exists nodes :: ShortestNodes(adj, src, dst, nodes) && |nodes| == |r|
                       && forall t :: 0 <= t < |r| ==> r[t].node == nodes[t]
  }

  lemma CookedOk(adj: Adjacency, src: Switch, dst: Switch, nodes: seq<Switch>, firstPort: Port, finalPort: Port,
                 r: seq<Hop>)
    requires Cooked(adj, nodes, firstPort, finalPort, r)
    requires Symmetric(adj) && ShortestNodes(adj, src, dst, nodes)
    ensures IsCooked(adj, src, dst, firstPort, finalPort, r)
  {
    assert r[0] == HopAt(adj, nodes, firstPort, finalPort, 0);
    assert r[|r| - 1] == HopAt(adj, nodes, firstPort, finalPort, |r| - 1);
    forall t | 0 <= t < |r|
      ensures r[t].inPort.Some? && r[t].outPort.Some?
      ensures t + 1 < |r| ==> HopsFit(adj, r, t)
    {
      if t + 1 < |r| {
        CookedFits(adj, src, dst, nodes, firstPort, finalPort, r, t);
      }
      if t > 0 {
        CookedFits(adj, src, dst, nodes, firstPort, finalPort, r, t - 1);
      }
    }
  }

  lemma CookedFits(adj: Adjacency, src: Switch, dst: Switch, nodes: seq<Switch>, firstPort: Port, finalPort: Port,
                   r: seq<Hop>, t: nat)
    requires Cooked(adj, nodes, firstPort, finalPort, r) && t + 1 < |r|
    requires Symmetric(adj) && ShortestNodes(adj, src, dst, nodes)
    ensures HopsFit(adj, r, t) && r[t].outPort.Some? && r[t + 1].inPort.Some?
  {
    assert r[t] == HopAt(adj, nodes, firstPort, finalPort, t);
    assert r[t + 1] == HopAt(adj, nodes, firstPort, finalPort, t + 1);
    assert (nodes[t], nodes[t + 1]) in adj;
  }

  /** Each out port of a cooked path is the adjacency's to the next switch, each in port its back to the last. */
  lemma CookedPorts(adj: Adjacency, src: Switch, dst: Switch, firstPort: Port, finalPort: Port, r: seq<Hop>)
    requires IsCooked(adj, src, dst, firstPort, finalPort, r)
    ensures forall t :: 0 <= t < |r| - 1 ==>
              var there, back := (r[t].node, r[t + 1].node), (r[t + 1].node, r[t].node);
              && there in adj && r[t].outPort == Some(adj[there])
              && back in adj && r[t + 1].inPort == Some(adj[back])
  {
    hide ShortestNodes;
    forall t | 0 <= t < |r| - 1
      ensures var there, back := (r[t].node, r[t + 1].node), (r[t + 1].node, r[t].node);
              && there in adj && r[t].outPort == Some(adj[there])
              && back in adj && r[t + 1].inPort == Some(adj[back])
    {
      assert HopsFit(adj, r, t);
    }
  }

  /** Another link between the same two switches that is known in the reverse direction as well. */
  predicate TakesOver(l: Link, ll: Link, discovered: seq<Link>) {
    && ll != l && ll.dpid1 == l.dpid1 && ll.dpid2 == l.dpid2
    && Link(l.dpid2, ll.port2, l.dpid1, ll.port1) in discovered
  }

  /** The replacement is the first link that takes over; there is none exactly when no link does. */
  lemma {:induction false} FirstTakesOver(l: Link, candidates: seq<Link>, discovered: seq<Link>)
    ensures match FirstReplacement(l, candidates, discovered)
            case Some(e) =>
              exists i: nat :: && i < |candidates| && candidates[i] == e && TakesOver(l, e, discovered)
                               && forall j :: 0 <= j < i ==> !TakesOver(l, candidates[j], discovered)
            case None => forall ll :: ll in candidates ==> !TakesOver(l, ll, discovered)
  {
    if candidates != [] {
      FirstTakesOver(l, candidates[1..], discovered);
      assert candidates == [candidates[0]] + candidates[1..];
      if !TakesOver(l, candidates[0], discovered) && FirstReplacement(l, candidates, discovered).Some? {
        var e := FirstReplacement(l, candidates, discovered).value;
        var i: nat :| && i < |candidates[1..]| && candidates[1..][i] == e && TakesOver(l, e, discovered)
                      && forall j :: 0 <= j < i ==> !TakesOver(l, candidates[1..][j], discovered);
        assert candidates[i + 1] == e;
      }
    }
  }

  lemma GoodSelfZero(adj: Adjacency, pm: PathMap, sws: seq<Switch>)
    requires Good(adj, pm, sws)
    ensures SelfZero(pm, sws)
  {
  }

  lemma RowDone(adj: Adjacency, pm: PathMap, sws: seq<Switch>, ks: set<Switch>, k: Switch, a: nat)
    requires a < |sws| && Round(adj, pm, sws, ks, k, a, |sws|)
    ensures Round(adj, pm, sws, ks, k, a + 1, 0)
  {
    hide Good, Covers;
    assert sws[..|sws|] == sws;
    forall i, j | i in sws[..a + 1] && j in sws
      ensures Covers(adj, pm, ks + {k}, i, j)
    {
      assert sws[..a + 1] == sws[..a] + [sws[a]];
    }
  }
}
