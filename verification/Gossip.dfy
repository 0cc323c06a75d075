/** Many members of one group, each asking whichever others it meets for what it lacks
    (crates/ac-groups/src/store.rs, crates/ac-groups/src/sync.rs). */
module Gossip {
  import opened Base
  import opened Wire
  import opened Standings
  import opened Memberships
  import opened Chains
  import opened ChainLaws
  import opened Tables
  import opened StoreLaws
  import opened Runs
  import opened Convergence
  import opened Exchange

  /** The group's rows on every node, by the node's identity. */
  type Net = map<Peer, Shelf>

  /** One node fetches the group from another and puts what it is served. */
  datatype Pull = Pull(taker: Peer, giver: Peer, now: int)

  function HeadSeq(shelf: Shelf): nat {
    if shelf.row.Some? then shelf.row.value.headSeq else 0
  }

  /** The taker's rows after it asked the giver for what comes after its own head. */
  function Taken(w: World, g: GroupId, taker: Shelf, giver: Shelf, pull: Pull): Shelf {
    match Serve(w, pull.giver, g, giver, pull.taker, HeadSeq(taker))
    case Ok(Some(served)) =>
      PutShelf(w, pull.taker, g, taker, HeadSeq(taker), served.entries, served.standings, pull.now).0
    case _ => taker
  }

  function Pulled(w: World, g: GroupId, net: Net, pull: Pull): Net {
    if pull.taker !in net || pull.giver !in net then net
    else net[pull.taker := Taken(w, g, net[pull.taker], net[pull.giver], pull)]
  }

  function PulledAll(w: World, g: GroupId, net: Net, pulls: seq<Pull>): Net {
    if pulls == [] then net
    else Pulled(w, g, PulledAll(w, g, net, pulls[..|pulls| - 1]), pulls[|pulls| - 1])
  }

  /** The nodes whose rows, as they were at the start, have reached each node, by however many others. */
  function Heard(nodes: set<Peer>, pulls: seq<Pull>): (heard: map<Peer, set<Peer>>)
    ensures heard.Keys == nodes
  {
    if pulls == [] then map node | node in nodes :: {node}
    else
      var before, last := Heard(nodes, pulls[..|pulls| - 1]), pulls[|pulls| - 1];
      if last.taker !in nodes || last.giver !in nodes then before
      else before[last.taker := before[last.taker] + before[last.giver]]
  }

  // ---- what can be known ----

  /** The length of a log and the statements beside it, which is all of a node's rows that matters here. */
  datatype View = View(len: nat, ranks: map<Peer, Rank>) {
    function Of(p: Peer): Option<Rank> {
      if p in ranks then Some(ranks[p]) else None
    }
  }

  function ViewOf(shelf: Shelf): View {
    View(HeadSeq(shelf), map p | p in shelf.standings :: (shelf.standings[p].seqNo, shelf.standings[p].standing.body))
  }

  function MembersAt(log: Log, n: nat): Roster {
    if n <= |log.entries| then Fold(log.entries[..n]) else map[]
  }

  /** Between two lengths of the log at which the peer is a member is one at which it is not. */
  predicate Returns(log: Log, p: Peer, i: nat, j: nat, k: nat) {
    i <= j <= k && p in MembersAt(log, i) && p !in MembersAt(log, j) && p in MembersAt(log, k)
  }

  /** Only members have statements. */
  ghost predicate OfMembers(full: Log, view: View) {
    forall p :: p in view.ranks ==> p in MembersAt(full, view.len)
  }

  type Starts = map<Peer, View>

  /** By the lengths of log that these nodes start with, the peer does not return. */
  ghost predicate Steady(full: Log, starts: Starts, p: Peer) {
    forall x, y, z :: x in starts && y in starts && z in starts ==>
      !Returns(full, p, starts[x].len, starts[y].len, starts[z].len)
  }

  /** The rank is the greatest of what these nodes started with about the peer. */
  ghost predicate IsBest(starts: Starts, heard: set<Peer>, p: Peer, rank: Option<Rank>) {
    && (forall q :: q in heard && q in starts && p in starts[q].ranks ==>
          rank.Some? && (starts[q].ranks[p] == rank.value || Wins(rank.value, starts[q].ranks[p])))
    && (rank.Some? ==> exists q :: q in heard && q in starts && starts[q].Of(p) == rank)
  }

  /** The longest log these nodes started with, and of each of its steady members the greatest statement. */
  ghost predicate Known(full: Log, starts: Starts, heard: set<Peer>, view: View) {
    && (forall q :: q in heard ==> q in starts && starts[q].len <= view.len)
    && (exists q :: q in heard && q in starts && starts[q].len == view.len)
    && (forall p :: p in MembersAt(full, view.len) && Steady(full, starts, p) ==>
          IsBest(starts, heard, p, view.Of(p)))
  }

  lemma BestOfBoth(starts: Starts, a: set<Peer>, b: set<Peer>, p: Peer, x: Option<Rank>, y: Option<Rank>)
    requires IsBest(starts, a, p, x) && IsBest(starts, b, p, y)
    ensures IsBest(starts, a + b, p, Best(x, y))
  {
    forall q | q in a + b && q in starts && p in starts[q].ranks
      ensures Best(x, y).Some?
              && (starts[q].ranks[p] == Best(x, y).value || Wins(Best(x, y).value, starts[q].ranks[p]))
    {
      if x.Some? && y.Some? {
        WinsIsStrictTotal(x.value, y.value, starts[q].ranks[p]);
        WinsIsStrictTotal(y.value, x.value, starts[q].ranks[p]);
      }
    }
  }

  lemma BestIsUnique(starts: Starts, heard: set<Peer>, p: Peer, x: Option<Rank>, y: Option<Rank>)
    requires IsBest(starts, heard, p, x) && IsBest(starts, heard, p, y)
    ensures x == y
  {
    if x.Some? && y.Some? {
      WinsIsStrictTotal(x.value, y.value, x.value);
    }
  }

  /** A peer that is a member later, but not where these nodes are, is one they had no statement of. */
  lemma NobodyHeardOf(full: Log, starts: Starts, heard: set<Peer>, view: View, z: Peer, p: Peer)
    requires Known(full, starts, heard, view) && OfMembers(full, view)
    requires forall q :: q in starts ==> OfMembers(full, starts[q])
    requires z in starts && view.len <= starts[z].len && p in MembersAt(full, starts[z].len)
    requires Steady(full, starts, p)
    ensures IsBest(starts, heard, p, view.Of(p))
  {
    if p !in MembersAt(full, view.len) {
      var y :| y in heard && y in starts && starts[y].len == view.len;
      forall q | q in heard && q in starts ensures p !in starts[q].ranks {
        assert !Returns(full, p, starts[q].len, starts[y].len, starts[z].len);
      }
    }
  }

  /** Knowledge joins. */
  lemma KnownByBoth(full: Log, starts: Starts, ha: set<Peer>, a: View, hb: set<Peer>, b: View, after: View)
    requires forall q :: q in starts ==> OfMembers(full, starts[q])
    requires Known(full, starts, ha, a) && Known(full, starts, hb, b) && OfMembers(full, a) && OfMembers(full, b)
    requires after.len == if a.len >= b.len then a.len else b.len
    requires forall p :: p in MembersAt(full, after.len) ==> after.Of(p) == Best(a.Of(p), b.Of(p))
    ensures Known(full, starts, ha + hb, after)
  {
    var qa :| qa in ha && qa in starts && starts[qa].len == a.len;
    var qb :| qb in hb && qb in starts && starts[qb].len == b.len;
    var q := if a.len >= b.len then qa else qb;
    assert q in ha + hb && starts[q].len == after.len;
    forall p | p in MembersAt(full, after.len) && Steady(full, starts, p)
      ensures IsBest(starts, ha + hb, p, after.Of(p))
    {
      NobodyHeardOf(full, starts, ha, a, q, p);
      NobodyHeardOf(full, starts, hb, b, q, p);
      BestOfBoth(starts, ha, hb, p, a.Of(p), b.Of(p));
    }
  }

  lemma KnownAtStart(full: Log, starts: Starts, a: Peer)
    requires a in starts
    ensures Known(full, starts, {a}, starts[a])
  {
    forall p ensures IsBest(starts, {a}, p, starts[a].Of(p)) {
      assert a in {a};
    }
    assert a in {a};
  }

  // ---- nodes ----

  /** A node holds the start of the admin's log, in step with its tables. */
  ghost predicate HoldsPartOf(w: World, g: GroupId, full: Log, shelf: Shelf, log: Log) {
    Healthy(w, g, shelf, log) && AgreeBelow(log, full, |log.entries|)
  }

  ghost predicate Holder(w: World, g: GroupId, full: Log, shelf: Shelf) {
    exists log :: HoldsPartOf(w, g, full, shelf, log)
  }

  function StartsOf(net: Net): Starts {
    map q | q in net :: ViewOf(net[q])
  }

  /** Every node holds some part of the admin's log, and every node is a member by each of those. */
  ghost predicate Meeting(w: World, g: GroupId, full: Log, net: Net) {
    && ValidLog(w, full) && full.id == g
    && (forall q :: q in net ==> Holder(w, g, full, net[q]))
    && (forall q :: q in net ==> net.Keys <= net[q].members.Keys)
  }

  ghost predicate Knows(w: World, g: GroupId, full: Log, net: Net, heard: set<Peer>, shelf: Shelf, log: Log) {
    HoldsPartOf(w, g, full, shelf, log) && Known(full, StartsOf(net), heard, ViewOf(shelf))
  }

  ghost predicate Knowing(w: World, g: GroupId, full: Log, net: Net, heard: set<Peer>, shelf: Shelf) {
    exists log :: Knows(w, g, full, net, heard, shelf, log)
  }

  lemma FollowersView(w: World, g: GroupId, full: Log, shelf: Shelf, log: Log)
    requires ValidLog(w, full) && HoldsPartOf(w, g, full, shelf, log)
    ensures log.Members() == MembersAt(full, |log.entries|) && shelf.members.Keys == log.Members().Keys
    ensures ViewOf(shelf).len == |log.entries| && OfMembers(full, ViewOf(shelf))
    ensures forall p :: ViewOf(shelf).Of(p) == RankIn(shelf.standings, p)
  {
    AgreeingLogs(w, log, full, |log.entries|);
    assert log.entries[..|log.entries|] == log.entries;
  }

  lemma StartsAreOfMembers(w: World, g: GroupId, full: Log, net: Net, q: Peer)
    requires Meeting(w, g, full, net) && q in net
    ensures OfMembers(full, StartsOf(net)[q])
    ensures forall p :: p in net ==> p in MembersAt(full, StartsOf(net)[q].len)
  {
    var log :| HoldsPartOf(w, g, full, net[q], log);
    FollowersView(w, g, full, net[q], log);
  }

  /** A node's log is as long as some log of the start, so everyone in the meeting is a member by it. */
  lemma EveryoneIsIn(w: World, g: GroupId, full: Log, net: Net, heard: set<Peer>, shelf: Shelf, log: Log, p: Peer)
    requires Meeting(w, g, full, net) && Knows(w, g, full, net, heard, shelf, log) && p in net
    ensures p in shelf.members
  {
    FollowersView(w, g, full, shelf, log);
    var q :| q in heard && q in StartsOf(net) && StartsOf(net)[q].len == ViewOf(shelf).len;
    StartsAreOfMembers(w, g, full, net, q);
  }

  lemma FollowersAgree(a: Log, b: Log, full: Log)
    requires AgreeBelow(a, full, |a.entries|) && AgreeBelow(b, full, |b.entries|)
    ensures Agree(a, b)
  {
  }

  lemma MergedFollows(w: World, g: GroupId, full: Log, shelf: Shelf, a: Log, b: Log)
    requires ValidLog(w, full) && Stores(w, g, shelf, a) && ValidLog(w, b) && b.id == g
    requires AgreeBelow(a, full, |a.entries|) && AgreeBelow(b, full, |b.entries|)
    ensures var l := Merged(a, b);
            && Agree(a, b)
            && |l.entries| == (if |a.entries| >= |b.entries| then |a.entries| else |b.entries|)
            && AgreeBelow(l, full, |l.entries|)
  {
    FollowersAgree(a, b, full);
    MergedIsPlanned(w, g, shelf, a, b);
  }

  /** Asked by a member, a member serves everything, and the taker puts it. */
  lemma TakenIsPut(w: World, g: GroupId, a: Shelf, from: nat, b: Shelf, lb: Log, pull: Pull)
    requires Stores(w, g, b, lb) && pull.taker in b.members && pull.giver in b.members && from == HeadSeq(a)
    ensures var es := Between(lb, from, |lb.entries|);
            Taken(w, g, a, b, pull)
            == PutShelf(w, pull.taker, g, a, from, es, StandingsOf(b.standings), pull.now).0
  {
    ServesMembersEverything(w, g, pull.giver, b, lb, pull.taker, from);
  }

  lemma TakenAbsorbs(w: World, g: GroupId, a: Shelf, la: Log, b: Shelf, lb: Log, pull: Pull)
    requires Healthy(w, g, a, la) && Healthy(w, g, b, lb) && Agree(la, lb)
    requires pull.taker in b.members && pull.giver in b.members
    ensures Absorbed(w, g, a, Taken(w, g, a, b, pull), Merged(la, lb), b.standings)
  {
    TakenIsPut(w, g, a, |la.entries|, b, lb, pull);
    ghost var taken := Taken(w, g, a, b, pull);
    assert Absorbed(w, g, a, taken, Merged(la, lb), b.standings) by {
      PutAbsorbs(w, g, pull.taker, a, la, lb, b.standings, pull.now);
    }
  }

  /** A pull adds what the giver knows to what the taker knows. */
  lemma PullingAddsKnowledge(
      w: World, g: GroupId, full: Log, net: Net, ha: set<Peer>, a: Shelf, la: Log, hb: set<Peer>, b: Shelf, lb: Log,
      pull: Pull)
    requires Meeting(w, g, full, net) && pull.taker in net && pull.giver in net
    requires Knows(w, g, full, net, ha, a, la) && Knows(w, g, full, net, hb, b, lb)
    ensures Knows(w, g, full, net, ha + hb, Taken(w, g, a, b, pull), Merged(la, lb))
  {
    EveryoneIsIn(w, g, full, net, hb, b, lb, pull.taker);
    EveryoneIsIn(w, g, full, net, hb, b, lb, pull.giver);
    MergedFollows(w, g, full, a, la, lb);
    TakenAbsorbs(w, g, a, la, b, lb, pull);
    AbsorbedKnows(w, g, full, net, ha, a, la, hb, b, lb, Taken(w, g, a, b, pull), Merged(la, lb));
  }

  lemma AbsorbedKnows(
      w: World, g: GroupId, full: Log, net: Net, ha: set<Peer>, a: Shelf, la: Log, hb: set<Peer>, b: Shelf, lb: Log,
      after: Shelf, l: Log)
    requires Meeting(w, g, full, net)
    requires Knows(w, g, full, net, ha, a, la) && Knows(w, g, full, net, hb, b, lb)
    requires Absorbed(w, g, a, after, l, b.standings)
    requires |l.entries| == if |la.entries| >= |lb.entries| then |la.entries| else |lb.entries|
    requires AgreeBelow(l, full, |l.entries|)
    ensures Knows(w, g, full, net, ha + hb, after, l)
  {
    FollowersView(w, g, full, a, la);
    FollowersView(w, g, full, b, lb);
    FollowersView(w, g, full, after, l);
    forall q | q in StartsOf(net) ensures OfMembers(full, StartsOf(net)[q]) {
      StartsAreOfMembers(w, g, full, net, q);
    }
    KnownByBoth(full, StartsOf(net), ha, ViewOf(a), hb, ViewOf(b), ViewOf(after));
  }

  lemma KnowingAtStart(w: World, g: GroupId, full: Log, net: Net, a: Peer)
    requires Meeting(w, g, full, net) && a in net
    ensures Knowing(w, g, full, net, {a}, net[a])
  {
    var log :| HoldsPartOf(w, g, full, net[a], log);
    KnownAtStart(full, StartsOf(net), a);
    assert Knows(w, g, full, net, {a}, net[a], log);
  }

  lemma TakerKnowsBoth(
      w: World, g: GroupId, full: Log, net: Net, ha: set<Peer>, a: Shelf, hb: set<Peer>, b: Shelf, pull: Pull)
    requires Meeting(w, g, full, net) && pull.taker in net && pull.giver in net
    requires Knowing(w, g, full, net, ha, a) && Knowing(w, g, full, net, hb, b)
    ensures Knowing(w, g, full, net, ha + hb, Taken(w, g, a, b, pull))
  {
    var la :| Knows(w, g, full, net, ha, a, la);
    var lb :| Knows(w, g, full, net, hb, b, lb);
    PullingAddsKnowledge(w, g, full, net, ha, a, la, hb, b, lb, pull);
  }

  /** Something said of what each node has heard and of its rows. */
  type Claim = (set<Peer>, Shelf) -> bool

  ghost predicate Everywhere(claim: Claim, heard: map<Peer, set<Peer>>, now: Net) {
    heard.Keys == now.Keys && forall a {:trigger now[a]} :: a in now ==> claim(heard[a], now[a])
  }

  /** Every pull between these nodes makes the claim true of the taker, having heard what both had. */
  ghost predicate Spreads(w: World, g: GroupId, nodes: set<Peer>, claim: Claim) {
    forall ha: set<Peer>, a: Shelf, hb: set<Peer>, b: Shelf, pull: Pull
      {:trigger claim(ha, a), claim(hb, b), Taken(w, g, a, b, pull)} ::
      claim(ha, a) && claim(hb, b) && pull.taker in nodes && pull.giver in nodes ==>
        claim(ha + hb, Taken(w, g, a, b, pull))
  }

  /** A claim true of each node at the start, and spread by every pull, is true of all after any pulls. */
  lemma {:induction false} PullsSpread(w: World, g: GroupId, net: Net, claim: Claim, pulls: seq<Pull>)
    requires Everywhere(claim, Heard(net.Keys, []), net) && Spreads(w, g, net.Keys, claim)
    ensures Everywhere(claim, Heard(net.Keys, pulls), PulledAll(w, g, net, pulls))
    decreases |pulls|
  {
    if pulls != [] {
      var front, last := pulls[..|pulls| - 1], pulls[|pulls| - 1];
      var heard, mid := Heard(net.Keys, front), PulledAll(w, g, net, front);
      PullsSpread(w, g, net, claim, front);
      if last.taker in net && last.giver in net {
        var taker, giver := mid[last.taker], mid[last.giver];
        OnePullMore(claim, heard, mid, last, Taken(w, g, taker, giver, last));
      }
    }
  }

  lemma OnePullMore(claim: Claim, heard: map<Peer, set<Peer>>, mid: Net, pull: Pull, taken: Shelf)
    requires Everywhere(claim, heard, mid) && pull.taker in mid && pull.giver in mid
    requires claim(heard[pull.taker] + heard[pull.giver], taken)
    ensures Everywhere(
              claim, heard[pull.taker := heard[pull.taker] + heard[pull.giver]], mid[pull.taker := taken])
  {
  }

  /** After any pulls, each node knows exactly what the nodes it has heard of started with: the longest
      of their logs, and of each member by that log the greatest of their statements. */
  lemma NodesKnowWhatTheyHeard(w: World, g: GroupId, full: Log, net: Net, pulls: seq<Pull>, a: Peer)
    requires Meeting(w, g, full, net) && a in net
    ensures a in PulledAll(w, g, net, pulls)
    ensures Knowing(w, g, full, net, Heard(net.Keys, pulls)[a], PulledAll(w, g, net, pulls)[a])
  {
    var claim: Claim := (heard, shelf) => Knowing(w, g, full, net, heard, shelf);
    forall q | q in net ensures claim({q}, net[q]) {
      KnowingAtStart(w, g, full, net, q);
    }
    forall ha, x, hb, y, pull: Pull {:trigger claim(ha, x), claim(hb, y), Taken(w, g, x, y, pull)}
      | claim(ha, x) && claim(hb, y) && pull.taker in net.Keys && pull.giver in net.Keys
      ensures claim(ha + hb, Taken(w, g, x, y, pull))
    {
      TakerKnowsBoth(w, g, full, net, ha, x, hb, y, pull);
    }
    PullsSpread(w, g, net, claim, pulls);
    ClaimedOf(claim, Heard(net.Keys, pulls), PulledAll(w, g, net, pulls), a);
  }

  lemma ClaimedOf(claim: Claim, heard: map<Peer, set<Peer>>, now: Net, a: Peer)
    requires Everywhere(claim, heard, now) && a in heard
    ensures a in now && claim(heard[a], now[a])
  {
  }

  /** The same log, the same members, and the same statement of every steady one; and so, if all are
      steady, nothing to fetch from each other. */
  ghost predicate Level(w: World, g: GroupId, full: Log, starts: Starts, a: Shelf, b: Shelf) {
    && a.row.Some? && b.row.Some?
    && a.row.value.headSeq == b.row.value.headSeq && a.row.value.headHash == b.row.value.headHash
    && a.members.Keys == b.members.Keys
    && (forall p :: Steady(full, starts, p) ==> RankIn(a.standings, p) == RankIn(b.standings, p))
    && ((forall p :: Steady(full, starts, p)) ==>
          && InAgreement(w, g, a, b)
          && !WorthFetching(a.row, HeadOf(g, b.row.value)) && !WorthFetching(b.row, HeadOf(g, a.row.value)))
  }

  lemma SameKnowledgeSameView(full: Log, starts: Starts, heard: set<Peer>, a: View, b: View)
    requires Known(full, starts, heard, a) && Known(full, starts, heard, b)
    requires OfMembers(full, a) && OfMembers(full, b)
    ensures a.len == b.len && forall p :: Steady(full, starts, p) ==> a.Of(p) == b.Of(p)
  {
    forall p | Steady(full, starts, p) ensures a.Of(p) == b.Of(p) {
      if p in MembersAt(full, a.len) {
        BestIsUnique(starts, heard, p, a.Of(p), b.Of(p));
      }
    }
  }

  /** Two nodes that know what the same nodes started with are level. */
  lemma SameKnowledgeIsLevel(
      w: World, g: GroupId, full: Log, net: Net, heard: set<Peer>, a: Shelf, la: Log, b: Shelf, lb: Log)
    requires Meeting(w, g, full, net)
    requires Knows(w, g, full, net, heard, a, la) && Knows(w, g, full, net, heard, b, lb)
    ensures Level(w, g, full, StartsOf(net), a, b)
  {
    var starts := StartsOf(net);
    FollowersView(w, g, full, a, la);
    FollowersView(w, g, full, b, lb);
    FollowersAgree(la, lb, full);
    SameKnowledgeSameView(full, starts, heard, ViewOf(a), ViewOf(b));
    SameLengthAgreement(w, la, lb);
    if forall p :: Steady(full, starts, p) {
      SameRanksAgree(w, g, full, a, la, b, lb);
    }
  }

  lemma SameRanksAgree(w: World, g: GroupId, full: Log, a: Shelf, la: Log, b: Shelf, lb: Log)
    requires HoldsPartOf(w, g, full, a, la) && HoldsPartOf(w, g, full, b, lb) && |la.entries| == |lb.entries|
    requires forall p :: RankIn(a.standings, p) == RankIn(b.standings, p)
    ensures InAgreement(w, g, a, b)
    ensures !WorthFetching(a.row, HeadOf(g, b.row.value)) && !WorthFetching(b.row, HeadOf(g, a.row.value))
  {
    FollowersAgree(la, lb, full);
    SameRanksSameStatements(w, g, a.standings, b.standings);
    AgreementOf(w, g, a, la, b, lb);
    AgreementIsSilent(w, g, a, b);
  }

  lemma SameKnowledgeMeets(w: World, g: GroupId, full: Log, net: Net, heard: set<Peer>, a: Shelf, b: Shelf)
    requires Meeting(w, g, full, net)
    requires Knowing(w, g, full, net, heard, a) && Knowing(w, g, full, net, heard, b)
    ensures Level(w, g, full, StartsOf(net), a, b)
  {
    var la :| Knows(w, g, full, net, heard, a, la);
    var lb :| Knows(w, g, full, net, heard, b, lb);
    SameKnowledgeIsLevel(w, g, full, net, heard, a, la, b, lb);
  }

  /** Whatever pulls were made in whatever order, two nodes that have heard from the same nodes, directly
      or through others, are level. */
  lemma GossipConverges(w: World, g: GroupId, full: Log, net: Net, pulls: seq<Pull>, a: Peer, b: Peer)
    requires Meeting(w, g, full, net) && a in net && b in net
    requires Heard(net.Keys, pulls)[a] == Heard(net.Keys, pulls)[b]
    ensures var after := PulledAll(w, g, net, pulls);
            a in after && b in after && Level(w, g, full, StartsOf(net), after[a], after[b])
  {
    NodesKnowWhatTheyHeard(w, g, full, net, pulls, a);
    NodesKnowWhatTheyHeard(w, g, full, net, pulls, b);
    var after, heard := PulledAll(w, g, net, pulls), Heard(net.Keys, pulls)[a];
    SameKnowledgeMeets(w, g, full, net, heard, after[a], after[b]);
  }
}
