/** What becomes of the statements of a peer that is removed and added again: when nodes that have heard
    the same can still hold different ones (crates/ac-groups/src/store.rs). */
module Divergence {
  import opened Base
  import opened Wire
  import opened Standings
  import opened Memberships
  import opened Chains
  import opened ChainLaws
  import opened Tables
  import opened StoreLaws
  import opened Runs
  import opened Convergence
  import opened Exchange
  import opened Gossip

  /** Some meeting and some pulls leave two nodes that heard the same with different statements of `p`. */
  ghost predicate CanDiverge(w: World, g: GroupId, full: Log, p: Peer) {
    exists net: Net, pulls: seq<Pull>, a: Peer, b: Peer :: Diverges(w, g, full, p, net, pulls, a, b)
  }

  ghost predicate Diverges(
      w: World, g: GroupId, full: Log, p: Peer, net: Net, pulls: seq<Pull>, a: Peer, b: Peer) {
    && Meeting(w, g, full, net) && a in net && b in net
    && Heard(net.Keys, pulls)[a] == Heard(net.Keys, pulls)[b]
    && var after := PulledAll(w, g, net, pulls);
       a in after && b in after && RankIn(after[a].standings, p) != RankIn(after[b].standings, p)
  }

  /** There is a statement of the peer about this group that everyone accepts. */
  ghost predicate CanSpeak(w: World, g: GroupId, p: Peer) {
    exists s :: Speaks(w, g, p, s)
  }

  ghost predicate Speaks(w: World, g: GroupId, p: Peer, s: Standing) {
    w.StandingBodyOf(s).Some? && SaidBy(w, g, p, s, w.StandingBodyOf(s).value)
  }

  predicate AllIn(full: Log, peers: set<Peer>, n: nat) {
    peers <= MembersAt(full, n).Keys
  }

  /** The peer is in, out and in again at three lengths of the log, and there are three others who are
      members at all three. */
  ghost predicate ReturnsAmong(full: Log, p: Peer, i: nat, j: nat, k: nat, x: Peer, y: Peer, z: Peer) {
    && Returns(full, p, i, j, k)
    && x != y && y != z && x != z
    && AllIn(full, {x, y, z}, i) && AllIn(full, {x, y, z}, j) && AllIn(full, {x, y, z}, k)
  }

  ghost predicate CanReturn(full: Log, p: Peer) {
    exists i, j, k, x, y, z :: ReturnsAmong(full, p, i, j, k, x, y, z)
  }

  // ---- only then ----

  lemma DivergingIsUnsteady(
      w: World, g: GroupId, full: Log, p: Peer, net: Net, pulls: seq<Pull>, a: Peer, b: Peer)
    requires Diverges(w, g, full, p, net, pulls, a, b)
    ensures !Steady(full, StartsOf(net), p)
  {
    GossipConverges(w, g, full, net, pulls, a, b);
  }

  lemma EveryoneStartsIn(w: World, g: GroupId, full: Log, net: Net, q: Peer)
    requires Meeting(w, g, full, net) && q in net
    ensures AllIn(full, net.Keys, StartsOf(net)[q].len)
  {
    StartsAreOfMembers(w, g, full, net, q);
  }

  lemma ReturningAmong(full: Log, nodes: set<Peer>, p: Peer, i: nat, j: nat, k: nat, x: Peer, y: Peer, z: Peer)
    requires Returns(full, p, i, j, k) && {x, y, z} <= nodes
    requires (x == y ==> i == j) && (y == z ==> j == k) && (x == z ==> i == k)
    requires AllIn(full, nodes, i) && AllIn(full, nodes, j) && AllIn(full, nodes, k)
    ensures CanReturn(full, p)
  {
    assert ReturnsAmong(full, p, i, j, k, x, y, z);
  }

  lemma UnsteadyReturns(full: Log, starts: Starts, p: Peer)
    requires !Steady(full, starts, p) && forall q :: q in starts ==> AllIn(full, starts.Keys, starts[q].len)
    ensures CanReturn(full, p)
  {
    var x, y, z :| x in starts && y in starts && z in starts
      && Returns(full, p, starts[x].len, starts[y].len, starts[z].len);
    var i, j, k := starts[x].len, starts[y].len, starts[z].len;
    assert {x, y, z} <= starts.Keys;
    ReturningAmong(full, starts.Keys, p, i, j, k, x, y, z);
  }

  lemma DivergingReturns(w: World, g: GroupId, full: Log, p: Peer, net: Net, pulls: seq<Pull>, a: Peer, b: Peer)
    requires Diverges(w, g, full, p, net, pulls, a, b)
    ensures CanReturn(full, p)
  {
    DivergingIsUnsteady(w, g, full, p, net, pulls, a, b);
    forall q | q in StartsOf(net) ensures AllIn(full, net.Keys, StartsOf(net)[q].len) {
      EveryoneStartsIn(w, g, full, net, q);
    }
    UnsteadyReturns(full, StartsOf(net), p);
  }

  lemma DivergingNeedsAStatement(
      w: World, g: GroupId, full: Log, p: Peer, net: Net, pulls: seq<Pull>, a: Peer, b: Peer)
    requires Diverges(w, g, full, p, net, pulls, a, b)
    ensures CanSpeak(w, g, p)
  {
    var after := PulledAll(w, g, net, pulls);
    var q := if p in after[a].standings then a else b;
    NodesKnowWhatTheyHeard(w, g, full, net, pulls, q);
    StatementsSpeak(w, g, full, net, Heard(net.Keys, pulls)[q], after[q], p);
  }

  lemma StatementsSpeak(w: World, g: GroupId, full: Log, net: Net, heard: set<Peer>, shelf: Shelf, p: Peer)
    requires Knowing(w, g, full, net, heard, shelf) && p in shelf.standings
    ensures CanSpeak(w, g, p)
  {
    var log :| Knows(w, g, full, net, heard, shelf, log);
    assert Speaks(w, g, p, shelf.standings[p].standing);
  }

  // ---- and always then ----

  /** The rows of a node that holds this log and these standings. */
  ghost function ShelfOf(w: World, log: Log, rows: map<Peer, StandingRow>): Shelf {
    var standings := ReadStandings(w, rows);
    Shelf(
      Some(GroupRow(log.Name(), log.admin, Active, |log.entries|, log.Head(),
                    DigestOf(w, log.Members(), standings), 0, 0, 0)),
      Table(log.Raw()), rows, Named(log.Members(), standings))
  }

  lemma ShelfOfFollows(w: World, g: GroupId, full: Log, n: nat, rows: map<Peer, StandingRow>)
    requires ValidLog(w, full) && full.id == g && 0 < n <= |full.entries|
    requires Genuine(w, g, rows) && rows.Keys <= MembersAt(full, n).Keys
    ensures var shelf := ShelfOf(w, full.Upto(n), rows);
            && HoldsPartOf(w, g, full, shelf, full.Upto(n))
            && shelf.members.Keys == MembersAt(full, n).Keys
  {
    ValidUpto(w, full, n);
  }

  /** Two logs cut from one, merged, are the longer. */
  lemma MergedMembers(w: World, g: GroupId, full: Log, shelf: Shelf, a: Log, b: Log)
    requires ValidLog(w, full) && Stores(w, g, shelf, a) && ValidLog(w, b) && b.id == g
    requires AgreeBelow(a, full, |a.entries|) && AgreeBelow(b, full, |b.entries|)
    ensures var l := Merged(a, b);
            && Agree(a, b) && AgreeBelow(l, full, |l.entries|) && ValidLog(w, l)
            && |l.entries| == (if |a.entries| >= |b.entries| then |a.entries| else |b.entries|)
            && l.Members() == MembersAt(full, |l.entries|)
  {
    MergedFollows(w, g, full, shelf, a, b);
    MergedIsPlanned(w, g, shelf, a, b);
    var l := Merged(a, b);
    AgreeingLogs(w, l, full, |l.entries|);
    assert l.entries[..|l.entries|] == l.entries;
  }

  ghost predicate Reaches(w: World, g: GroupId, full: Log, shelf: Shelf, n: nat) {
    exists log :: HoldsPartOf(w, g, full, shelf, log) && |log.entries| == n
  }

  /** A node, as far as this matters: how long its log is, and the rank of the statement it has. */
  ghost predicate IsAt(w: World, g: GroupId, full: Log, p: Peer, shelf: Shelf, n: nat, rank: Option<Rank>) {
    Reaches(w, g, full, shelf, n) && RankIn(shelf.standings, p) == rank
  }

  /** What one pull does to a statement: it passes if the peer is in by the longer log, and is dropped if
      not. */
  lemma OnePull(
      w: World, g: GroupId, full: Log, p: Peer, a: Shelf, m: nat, ra: Option<Rank>, b: Shelf, n: nat, rb: Option<Rank>,
      pull: Pull)
    requires ValidLog(w, full) && IsAt(w, g, full, p, a, m, ra) && IsAt(w, g, full, p, b, n, rb)
    requires pull.taker in MembersAt(full, n) && pull.giver in MembersAt(full, n)
    ensures var longer := if m >= n then m else n;
            IsAt(w, g, full, p, Taken(w, g, a, b, pull), longer,
                 if p in MembersAt(full, longer) then Best(ra, rb) else None)
  {
    var la :| HoldsPartOf(w, g, full, a, la) && |la.entries| == m;
    var lb :| HoldsPartOf(w, g, full, b, lb) && |lb.entries| == n;
    PullHolds(w, g, full, p, a, la, b, lb, pull);
    var longer := if m >= n then m else n;
    assert Reaches(w, g, full, Taken(w, g, a, b, pull), longer);
  }

  lemma PullHolds(w: World, g: GroupId, full: Log, p: Peer, a: Shelf, la: Log, b: Shelf, lb: Log, pull: Pull)
    requires ValidLog(w, full) && HoldsPartOf(w, g, full, a, la) && HoldsPartOf(w, g, full, b, lb)
    requires pull.taker in MembersAt(full, |lb.entries|) && pull.giver in MembersAt(full, |lb.entries|)
    ensures var (after, l) := (Taken(w, g, a, b, pull), Merged(la, lb));
            && HoldsPartOf(w, g, full, after, l)
            && |l.entries| == (if |la.entries| >= |lb.entries| then |la.entries| else |lb.entries|)
            && RankIn(after.standings, p)
               == if p in MembersAt(full, |l.entries|)
                  then Best(RankIn(a.standings, p), RankIn(b.standings, p)) else None
  {
    FollowersView(w, g, full, b, lb);
    MergedMembers(w, g, full, a, la, lb);
    TakenAbsorbs(w, g, a, la, b, lb, pull);
  }

  function Three(x: Peer, a: Shelf, y: Peer, b: Shelf, z: Peer, c: Shelf): (net: Net)
    requires x != y && y != z && x != z
    ensures net.Keys == {x, y, z} && net[x] == a && net[y] == b && net[z] == c
  {
    map[x := a, y := b, z := c]
  }

  /** `y` asks `x` and then `z`, and loses the statement; `z` asks `x` and then `y`, and keeps it. */
  function Order(x: Peer, y: Peer, z: Peer): seq<Pull> {
    [Pull(y, x, 0), Pull(y, z, 0), Pull(z, x, 0), Pull(z, y, 0)]
  }

  lemma OrderedPulls(w: World, g: GroupId, net: Net, x: Peer, y: Peer, z: Peer)
    requires net.Keys == {x, y, z} && x != y && y != z && x != z
    ensures var y1 := Taken(w, g, net[y], net[x], Pull(y, x, 0));
            var y2 := Taken(w, g, y1, net[z], Pull(y, z, 0));
            var z1 := Taken(w, g, net[z], net[x], Pull(z, x, 0));
            var z2 := Taken(w, g, z1, y2, Pull(z, y, 0));
            var after := PulledAll(w, g, net, Order(x, y, z));
            y in after && z in after && after[y] == y2 && after[z] == z2
  {
    var o := Order(x, y, z);
    var y1 := Taken(w, g, net[y], net[x], o[0]);
    var y2 := Taken(w, g, y1, net[z], o[1]);
    var z1 := Taken(w, g, net[z], net[x], o[2]);
    var n1 := PullOne(w, g, net, [], o[0]);
    var n2 := PullOne(w, g, net, [o[0]], o[1]);
    var n3 := PullOne(w, g, net, [o[0], o[1]], o[2]);
    var n4 := PullOne(w, g, net, [o[0], o[1], o[2]], o[3]);
    assert [] + [o[0]] == [o[0]] && [o[0]] + [o[1]] == [o[0], o[1]];
    assert [o[0], o[1]] + [o[2]] == [o[0], o[1], o[2]] && [o[0], o[1], o[2]] + [o[3]] == o;
  }

  lemma PullOne(w: World, g: GroupId, net: Net, front: seq<Pull>, last: Pull) returns (after: Net)
    ensures after == PulledAll(w, g, net, front + [last])
    ensures var before := PulledAll(w, g, net, front);
            last.taker in before && last.giver in before ==>
              && after.Keys == before.Keys
              && after[last.taker] == Taken(w, g, before[last.taker], before[last.giver], last)
              && forall q :: q in before && q != last.taker ==> after[q] == before[q]
  {
    after := PulledAll(w, g, net, front + [last]);
    assert (front + [last])[..|front|] == front;
  }

  lemma OrderIsHeard(nodes: set<Peer>, x: Peer, y: Peer, z: Peer)
    requires nodes == {x, y, z} && x != y && y != z && x != z
    ensures Heard(nodes, Order(x, y, z))[y] == nodes && Heard(nodes, Order(x, y, z))[z] == nodes
  {
    var o := Order(x, y, z);
    assert o[..3][..2][..1] == [o[0]] && [o[0]][..0] == [];
    assert o[..3] == [o[0], o[1], o[2]] && o[..3][..2] == [o[0], o[1]];
    var h0 := Heard(nodes, []);
    var h1 := Heard(nodes, [o[0]]);
    assert h1 == h0[y := h0[y] + h0[x]];
    var h2 := Heard(nodes, [o[0], o[1]]);
    assert [o[0], o[1]][..1] == [o[0]];
    assert h2 == h1[y := h1[y] + h1[z]];
    var h3 := Heard(nodes, [o[0], o[1], o[2]]);
    assert [o[0], o[1], o[2]][..2] == [o[0], o[1]];
    assert h3 == h2[z := h2[z] + h2[x]];
    assert h3[y] == {x, y, z} && h3[z] == {x, z};
  }

  lemma ShelfOfIsAt(w: World, g: GroupId, full: Log, p: Peer, n: nat, rows: map<Peer, StandingRow>)
    requires ValidLog(w, full) && full.id == g && 0 < n <= |full.entries|
    requires Genuine(w, g, rows) && rows.Keys <= MembersAt(full, n).Keys
    ensures var shelf := ShelfOf(w, full.Upto(n), rows);
            && IsAt(w, g, full, p, shelf, n, RankIn(rows, p))
            && shelf.members.Keys == MembersAt(full, n).Keys
  {
    ShelfOfFollows(w, g, full, n, rows);
    assert HoldsPartOf(w, g, full, ShelfOf(w, full.Upto(n), rows), full.Upto(n));
  }

  lemma AtIsHolder(w: World, g: GroupId, full: Log, p: Peer, shelf: Shelf, n: nat, rank: Option<Rank>)
    requires IsAt(w, g, full, p, shelf, n, rank)
    ensures Holder(w, g, full, shelf)
  {
  }

  lemma AllOfThree(net: Net, claim: Shelf -> bool, x: Peer, y: Peer, z: Peer)
    requires net.Keys == {x, y, z} && claim(net[x]) && claim(net[y]) && claim(net[z])
    ensures forall q :: q in net ==> claim(net[q])
  {
    forall q | q in net ensures claim(net[q]) {
      assert q == x || q == y || q == z;
    }
  }

  lemma ThreeMeet(w: World, g: GroupId, full: Log, net: Net, x: Peer, y: Peer, z: Peer)
    requires ValidLog(w, full) && full.id == g && net.Keys == {x, y, z}
    requires Holder(w, g, full, net[x]) && net.Keys <= net[x].members.Keys
    requires Holder(w, g, full, net[y]) && net.Keys <= net[y].members.Keys
    requires Holder(w, g, full, net[z]) && net.Keys <= net[z].members.Keys
    ensures Meeting(w, g, full, net)
  {
    AllOfThree(net, shelf => Holder(w, g, full, shelf) && net.Keys <= shelf.members.Keys, x, y, z);
  }

  lemma ReturnsInOrder(full: Log, p: Peer, i: nat, j: nat, k: nat)
    requires Returns(full, p, i, j, k)
    ensures 0 < i < j < k <= |full.entries|
  {
    assert full.entries[..0] == [];
  }

  /** A statement that can be made of a peer that returns among three others can be lost by one node and
      kept by another that heard no more. */
  lemma ReturningDiverges(
      w: World, g: GroupId, full: Log, p: Peer, s: Standing, i: nat, j: nat, k: nat, x: Peer, y: Peer, z: Peer)
    requires ValidLog(w, full) && full.id == g && ReturnsAmong(full, p, i, j, k, x, y, z) && Speaks(w, g, p, s)
    ensures CanDiverge(w, g, full, p)
  {
    var body := w.StandingBodyOf(s).value;
    var row := StandingRow(body.seqNo, body.position, s);
    var rank := (row.seqNo, row.standing.body);
    ReturnsInOrder(full, p, i, j, k);
    var rows: map<Peer, StandingRow> := map[p := row];
    ShelfOfIsAt(w, g, full, p, i, rows);
    ShelfOfIsAt(w, g, full, p, j, map[]);
    ShelfOfIsAt(w, g, full, p, k, map[]);
    ThreeDiverge(
      w, g, full, p, ShelfOf(w, full.Upto(i), rows), ShelfOf(w, full.Upto(j), map[]), ShelfOf(w, full.Upto(k), map[]),
      rank, i, j, k, x, y, z);
  }

  /** `x` starts where the peer is in and has its statement, `y` where it is out, `z` where it is in
      again. */
  lemma ThreeDiverge(
      w: World, g: GroupId, full: Log, p: Peer, a: Shelf, b: Shelf, c: Shelf, rank: Rank,
      i: nat, j: nat, k: nat, x: Peer, y: Peer, z: Peer)
    requires ValidLog(w, full) && full.id == g && ReturnsAmong(full, p, i, j, k, x, y, z) && i < j < k
    requires IsAt(w, g, full, p, a, i, Some(rank)) && {x, y, z} <= a.members.Keys
    requires IsAt(w, g, full, p, b, j, None) && {x, y, z} <= b.members.Keys
    requires IsAt(w, g, full, p, c, k, None) && {x, y, z} <= c.members.Keys
    ensures CanDiverge(w, g, full, p)
  {
    var net := Three(x, a, y, b, z, c);
    AtIsHolder(w, g, full, p, a, i, Some(rank));
    AtIsHolder(w, g, full, p, b, j, None);
    AtIsHolder(w, g, full, p, c, k, None);
    ThreeMeet(w, g, full, net, x, y, z);
    OrderedPulls(w, g, net, x, y, z);
    OrderIsHeard(net.Keys, x, y, z);
    LostAndKept(w, g, full, p, net, rank, i, j, k, x, y, z);
    assert Diverges(w, g, full, p, net, Order(x, y, z), y, z);
  }

  lemma LostAndKept(
      w: World, g: GroupId, full: Log, p: Peer, net: Net, rank: Rank, i: nat, j: nat, k: nat, x: Peer, y: Peer, z: Peer)
    requires ValidLog(w, full) && ReturnsAmong(full, p, i, j, k, x, y, z) && net.Keys == {x, y, z} && i < j < k
    requires IsAt(w, g, full, p, net[x], i, Some(rank))
    requires IsAt(w, g, full, p, net[y], j, None) && IsAt(w, g, full, p, net[z], k, None)
    ensures var y1 := Taken(w, g, net[y], net[x], Pull(y, x, 0));
            var y2 := Taken(w, g, y1, net[z], Pull(y, z, 0));
            var z1 := Taken(w, g, net[z], net[x], Pull(z, x, 0));
            var z2 := Taken(w, g, z1, y2, Pull(z, y, 0));
            RankIn(y2.standings, p) == None && RankIn(z2.standings, p) == Some(rank)
  {
    assert {x, y, z} <= MembersAt(full, i).Keys && {x, y, z} <= MembersAt(full, k).Keys;
    var y1 := Taken(w, g, net[y], net[x], Pull(y, x, 0));
    OnePull(w, g, full, p, net[y], j, None, net[x], i, Some(rank), Pull(y, x, 0));
    var y2 := Taken(w, g, y1, net[z], Pull(y, z, 0));
    OnePull(w, g, full, p, y1, j, None, net[z], k, None, Pull(y, z, 0));
    var z1 := Taken(w, g, net[z], net[x], Pull(z, x, 0));
    OnePull(w, g, full, p, net[z], k, None, net[x], i, Some(rank), Pull(z, x, 0));
    OnePull(w, g, full, p, z1, k, Some(rank), y2, k, None, Pull(z, y, 0));
  }

  /** Nodes that heard the same can hold different statements of a peer exactly when it can make one and
      the log takes it in, out and in again while three others stay. */
  lemma DivergesExactly(w: World, g: GroupId, full: Log, p: Peer)
    requires ValidLog(w, full) && full.id == g
    ensures CanDiverge(w, g, full, p) <==> CanSpeak(w, g, p) && CanReturn(full, p)
  {
    if CanDiverge(w, g, full, p) {
      var net, pulls, a, b :| Diverges(w, g, full, p, net, pulls, a, b);
      DivergingReturns(w, g, full, p, net, pulls, a, b);
      DivergingNeedsAStatement(w, g, full, p, net, pulls, a, b);
    }
    if CanSpeak(w, g, p) && CanReturn(full, p) {
      var s :| Speaks(w, g, p, s);
      var i, j, k, x, y, z :| ReturnsAmong(full, p, i, j, k, x, y, z);
      ReturningDiverges(w, g, full, p, s, i, j, k, x, y, z);
    }
  }
}
