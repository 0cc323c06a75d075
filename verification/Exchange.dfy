/** A two-way exchange between two members brings them to the same log, the same members and the
    same statements, after which neither has anything to ask the other. */
module Exchange {
  import opened Base
  import opened Wire
  import opened Standings
  import opened Memberships
  import opened Chains
  import opened ChainLaws
  import opened Tables
  import opened StoreLaws
  import opened Runs
  import opened Convergence

  // ---- a batch of standings is a join ----

  /** A mentioned peer's own word about the group. */
  predicate Admissible(w: World, g: GroupId, log: Log, s: Standing) {
    match w.StandingBodyOf(s)
    case None => false
    case Some(body) => body.peer.Base58? && SaidBy(w, g, body.peer.peer, s, body) && EverMentioned(log, body.peer.peer)
  }

  function OfferOf(w: World, g: GroupId, log: Log, s: Standing): Offer
    requires Admissible(w, g, log, s)
  {
    var body := w.StandingBodyOf(s).value;
    Offer(body.peer.peer, Held(s, body.seqNo, body.position, body.username))
  }

  function OffersOf(w: World, g: GroupId, log: Log, ss: seq<Standing>): seq<Offer> {
    if ss == [] then []
    else
      var last := |ss| - 1;
      OffersOf(w, g, log, ss[..last]) +
      (if Admissible(w, g, log, ss[last]) then [OfferOf(w, g, log, ss[last])] else [])
  }

  lemma {:induction false} TakeAllSnoc(
      w: World, g: GroupId, log: Log, members: Roster, so: Intake, ss: seq<Standing>, s: Standing)
    ensures TakeAll(w, g, log, members, so, ss + [s]) ==
            TakeIn(w, g, log, members, TakeAll(w, g, log, members, so, ss), s)
    decreases |ss|
  {
    if ss == [] {
      assert ([] + [s])[1..] == [];
    } else {
      assert (ss + [s])[1..] == ss[1..] + [s];
      TakeAllSnoc(w, g, log, members, TakeIn(w, g, log, members, so, ss[0]), ss[1..], s);
    }
  }

  /** Taking in a batch is offering its admissible statements to the table. */
  lemma {:induction false} TakeAllIsRecordAll(
      w: World, g: GroupId, log: Log, members: Roster, so: Intake, ss: seq<Standing>)
    ensures TakeAll(w, g, log, members, so, ss).held == RecordAll(so.held, OffersOf(w, g, log, ss))
  {
    if ss != [] {
      var last := |ss| - 1;
      assert ss == ss[..last] + [ss[last]];
      TakeAllSnoc(w, g, log, members, so, ss[..last], ss[last]);
      TakeAllIsRecordAll(w, g, log, members, so, ss[..last]);
      var before := OffersOf(w, g, log, ss[..last]);
      var taken := TakeAll(w, g, log, members, so, ss[..last]);
      TakingInOne(w, g, log, members, taken, ss[last]);
      if Admissible(w, g, log, ss[last]) {
        var o := OfferOf(w, g, log, ss[last]);
        assert (before + [o])[..|before|] == before;
      } else {
        assert before + [] == before;
      }
    }
  }

  lemma TakingInOne(w: World, g: GroupId, log: Log, members: Roster, so: Intake, s: Standing)
    ensures TakeIn(w, g, log, members, so, s).held
            == if Admissible(w, g, log, s)
               then Record(so.held, OfferOf(w, g, log, s).peer, OfferOf(w, g, log, s).held) else so.held
  {
  }

  lemma {:induction false} OffersAreStatements(w: World, g: GroupId, log: Log, ss: seq<Standing>, o: Offer)
    ensures o in OffersOf(w, g, log, ss) <==>
            exists s :: s in ss && Admissible(w, g, log, s) && OfferOf(w, g, log, s) == o
  {
    if ss != [] {
      var last := |ss| - 1;
      OffersAreStatements(w, g, log, ss[..last], o);
      assert ss == ss[..last] + [ss[last]];
    }
  }

  // ---- who holds which statement ----

  type Rank = (U64, Bytes)

  function RankIn(rows: map<Peer, StandingRow>, p: Peer): Option<Rank> {
    if p in rows then Some((rows[p].seqNo, rows[p].standing.body)) else None
  }

  /** The greater of two statements, none being less than any. */
  function Best(a: Option<Rank>, b: Option<Rank>): Option<Rank> {
    if a.None? then b else if b.None? then a else if Wins(b.value, a.value) then b else a
  }

  lemma BestIsJoin(a: Option<Rank>, b: Option<Rank>)
    ensures Best(a, b) == Best(b, a)
    ensures Best(b, Best(a, b)) == Best(a, b)
  {
    if a.Some? && b.Some? {
      WinsIsStrictTotal(a.value, b.value, a.value);
    }
  }

  /** What a table offers, when it holds each peer's own word and every peer counts here. */
  lemma TableOffers(w: World, g: GroupId, log: Log, rows: map<Peer, StandingRow>, m: Register, p: Peer, rank: Rank)
    requires Genuine(w, g, rows)
    requires forall q :: q in rows ==> EverMentioned(log, q)
    ensures Offered(m, OffersOf(w, g, log, StandingsOf(rows)), p, rank) <==>
            (p in m && m[p].Rank() == rank) || RankIn(rows, p) == Some(rank)
  {
    var ss := StandingsOf(rows);
    var offers := OffersOf(w, g, log, ss);
    if i :| 0 <= i < |offers| && offers[i].peer == p && offers[i].held.Rank() == rank {
      OffersAreStatements(w, g, log, ss, offers[i]);
      var s :| s in ss && Admissible(w, g, log, s) && OfferOf(w, g, log, s) == offers[i];
      StandingsOfHolds(rows, s);
    }
    if RankIn(rows, p) == Some(rank) {
      var s := rows[p].standing;
      StandingsOfHolds(rows, s);
      var o := OfferOf(w, g, log, s);
      OffersAreStatements(w, g, log, ss, o);
      assert o in offers;
    }
  }

  lemma GenuineReadsWhole(w: World, g: GroupId, rows: map<Peer, StandingRow>)
    requires Genuine(w, g, rows)
    ensures ReadStandings(w, rows).Keys == rows.Keys
    ensures forall p :: p in rows ==> Some(ReadStandings(w, rows)[p].Rank()) == RankIn(rows, p)
    ensures FaithfulTable(w, ReadStandings(w, rows))
  {
  }

  /** Taking in another table leaves each peer with the better of the two statements. */
  lemma TakingInATable(
      w: World, g: GroupId, log: Log, members: Roster, mine: map<Peer, StandingRow>, theirs: map<Peer, StandingRow>,
      p: Peer)
    requires Genuine(w, g, mine) && Genuine(w, g, theirs)
    requires forall q :: q in theirs ==> EverMentioned(log, q)
    ensures var so := Intake(ReadStandings(w, mine), mine, []);
            var done := TakeAll(w, g, log, members, so, StandingsOf(theirs));
            && RankIn(done.rows, p) == Best(RankIn(mine, p), RankIn(theirs, p))
            && done.held == ReadStandings(w, done.rows)
            && Genuine(w, g, done.rows)
  {
    var held := ReadStandings(w, mine);
    var so := Intake(held, mine, []);
    var ss := StandingsOf(theirs);
    var done := TakeAll(w, g, log, members, so, ss);
    GenuineReadsWhole(w, g, mine);
    TakeAllReadsBack(w, g, log, members, so, ss);
    TakeAllIsGenuine(w, g, log, members, so, ss);
    GenuineReadsWhole(w, g, done.rows);
    TakeAllIsRecordAll(w, g, log, members, so, ss);
    var offers := OffersOf(w, g, log, ss);
    forall rank ensures Offered(held, offers, p, rank) <==>
        RankIn(mine, p) == Some(rank) || RankIn(theirs, p) == Some(rank)
    {
      TableOffers(w, g, log, theirs, held, p, rank);
    }
    MaximumIsBest(held, offers, p, RankIn(mine, p), RankIn(theirs, p));
  }

  lemma MaximumIsBest(m: Register, offers: seq<Offer>, p: Peer, mine: Option<Rank>, theirs: Option<Rank>)
    requires forall rank :: Offered(m, offers, p, rank) <==> mine == Some(rank) || theirs == Some(rank)
    ensures var after := RecordAll(m, offers);
            Best(mine, theirs) == if p in after then Some(after[p].Rank()) else None
  {
    RecordAllHoldsTheMaximum(m, offers, p);
    if mine.Some? {
      assert Offered(m, offers, p, mine.value);
    }
    if theirs.Some? {
      assert Offered(m, offers, p, theirs.value);
    }
    if mine.Some? && theirs.Some? {
      WinsIsStrictTotal(mine.value, theirs.value, mine.value);
    }
  }

  lemma TakingInAllOfATable(
      w: World, g: GroupId, log: Log, members: Roster, mine: map<Peer, StandingRow>, theirs: map<Peer, StandingRow>)
    requires Genuine(w, g, mine) && Genuine(w, g, theirs)
    requires forall q :: q in theirs ==> EverMentioned(log, q)
    ensures var rows := TakeAll(w, g, log, members, Intake(ReadStandings(w, mine), mine, []), StandingsOf(theirs)).rows;
            && Genuine(w, g, rows)
            && forall p :: RankIn(rows, p) == Best(RankIn(mine, p), RankIn(theirs, p))
  {
    var so := Intake(ReadStandings(w, mine), mine, []);
    TakeAllIsGenuine(w, g, log, members, so, StandingsOf(theirs));
    var rows := TakeAll(w, g, log, members, so, StandingsOf(theirs)).rows;
    forall p ensures RankIn(rows, p) == Best(RankIn(mine, p), RankIn(theirs, p)) {
      TakingInATable(w, g, log, members, mine, theirs, p);
    }
  }

  // ---- one direction ----

  /** The longer of two logs that agree, with our own copies of the entries we had. */
  function Merged(ours: Log, theirs: Log): Log {
    if |ours.entries| >= |theirs.entries| then ours else Splice(ours, theirs, |theirs.entries|)
  }

  /** A group's rows, in step with their log and holding only peers' own words. */
  ghost predicate Healthy(w: World, g: GroupId, shelf: Shelf, log: Log) {
    Stores(w, g, shelf, log) && Cached(w, shelf, log) && Genuine(w, g, shelf.standings)
  }

  ghost predicate Agree(a: Log, b: Log) {
    AgreeBelow(a, b, if |a.entries| <= |b.entries| then |a.entries| else |b.entries|)
  }

  lemma ServesMembersEverything(w: World, g: GroupId, me: Peer, shelf: Shelf, log: Log, peer: Peer, from: nat)
    requires Stores(w, g, shelf, log) && me in shelf.members && peer in shelf.members
    ensures Serve(w, me, g, shelf, peer, from) ==
            Ok(Some(Served(Between(log, from, |log.entries|), StandingsOf(shelf.standings))))
  {
    StoredLogIsRead(w, g, shelf, log);
  }

  lemma MergedIsPlanned(w: World, g: GroupId, shelf: Shelf, ours: Log, theirs: Log)
    requires Stores(w, g, shelf, ours) && ValidLog(w, theirs) && theirs.id == g && Agree(ours, theirs)
    ensures var m := |ours.entries|;
            var es := Between(theirs, m, |theirs.entries|);
            && PlanPut(w, g, shelf, m, es) == Ok(PutPlan(ours.Members(), m, es, Merged(ours, theirs)))
            && ValidLog(w, Merged(ours, theirs)) && Merged(ours, theirs).id == g
            && AgreeBelow(Merged(ours, theirs), theirs, |theirs.entries|)
            && AgreeBelow(Merged(ours, theirs), ours, |ours.entries|)
  {
    var m := |ours.entries|;
    if m >= |theirs.entries| {
      assert Between(theirs, m, |theirs.entries|) == [];
      PutOfNothing(w, g, shelf, ours);
    } else {
      PutOfServedEntries(w, g, shelf, ours, theirs, |theirs.entries|);
      SpliceIsValid(w, ours, theirs, |theirs.entries|);
    }
  }

  lemma MentionsCarryOver(w: World, a: Log, b: Log, p: Peer)
    requires ValidLog(w, a) && ValidLog(w, b) && a.id == b.id && AgreeBelow(a, b, |b.entries|)
    requires p in b.Members()
    ensures EverMentioned(a, p)
  {
    EveryPeerHasOneStatus(w, b, p);
    SameIdSameGenesis(w, a, b);
    AgreeingLogs(w, a, b, |b.entries|);
  }

  /** What one direction leaves behind: the longer log, tables in step with it, and for each of its
      members the better of the two statements. */
  ghost predicate Absorbed(
      w: World, g: GroupId, before: Shelf, after: Shelf, log: Log, offered: map<Peer, StandingRow>) {
    && Healthy(w, g, after, log)
    && (forall p :: RankIn(after.standings, p) ==
          if p in log.Members() then Best(RankIn(before.standings, p), RankIn(offered, p)) else None)
  }

  lemma CommittedRows(
      w: World, me: Peer, g: GroupId, shelf: Shelf, plan: PutPlan, standings: seq<Standing>, now: int)
    requires CommitPut(w, me, g, shelf, plan, standings, now).Ok?
    ensures var log := plan.log;
            var done := TakeAll(w, g, log, log.Members(),
                                Intake(ReadStandings(w, shelf.standings), shelf.standings, []), standings);
            CommitPut(w, me, g, shelf, plan, standings, now).value.0.standings ==
            map p | p in done.rows && p in log.Members() :: done.rows[p]
  {
  }

  lemma RestrictedIsAbsorbed(
      w: World, g: GroupId, before: Shelf, after: Shelf, log: Log, offered: map<Peer, StandingRow>,
      rows: map<Peer, StandingRow>)
    requires Stores(w, g, after, log) && Cached(w, after, log)
    requires Genuine(w, g, rows)
    requires after.standings == map p | p in rows && p in log.Members() :: rows[p]
    requires forall p :: RankIn(rows, p) == Best(RankIn(before.standings, p), RankIn(offered, p))
    ensures Absorbed(w, g, before, after, log, offered)
  {
  }

  lemma CommitAbsorbs(
      w: World, g: GroupId, me: Peer, shelf: Shelf, ours: Log, plan: PutPlan, offered: map<Peer, StandingRow>, now: int)
    requires Healthy(w, g, shelf, ours) && PlannedFrom(w, g, plan, ours)
    requires Genuine(w, g, offered) && forall q :: q in offered ==> EverMentioned(plan.log, q)
    ensures var r := CommitPut(w, me, g, shelf, plan, StandingsOf(offered), now);
            r.Ok? && Absorbed(w, g, shelf, r.value.0, plan.log, offered)
  {
    CommitPutCaches(w, me, g, shelf, ours, plan, StandingsOf(offered), now);
    CommittedRows(w, me, g, shelf, plan, StandingsOf(offered), now);
    var log := plan.log;
    var so := Intake(ReadStandings(w, shelf.standings), shelf.standings, []);
    var rows := TakeAll(w, g, log, log.Members(), so, StandingsOf(offered)).rows;
    TakingInAllOfATable(w, g, log, log.Members(), shelf.standings, offered);
    var after := CommitPut(w, me, g, shelf, plan, StandingsOf(offered), now).value.0;
    RestrictedIsAbsorbed(w, g, shelf, after, log, offered, rows);
  }

  lemma PutAbsorbs(
      w: World, g: GroupId, me: Peer, shelf: Shelf, ours: Log, theirs: Log, offered: map<Peer, StandingRow>, now: int)
    requires Healthy(w, g, shelf, ours) && ValidLog(w, theirs) && theirs.id == g && Agree(ours, theirs)
    requires Genuine(w, g, offered) && offered.Keys <= theirs.Members().Keys
    ensures var m := |ours.entries|;
            var es := Between(theirs, m, |theirs.entries|);
            var (after, r) := PutShelf(w, me, g, shelf, m, es, StandingsOf(offered), now);
            r.Ok? && Absorbed(w, g, shelf, after, Merged(ours, theirs), offered)
  {
    var m := |ours.entries|;
    var es := Between(theirs, m, |theirs.entries|);
    MergedIsPlanned(w, g, shelf, ours, theirs);
    PlanPutIsSound(w, g, shelf, ours, m, es);
    var merged := Merged(ours, theirs);
    forall q | q in offered ensures EverMentioned(merged, q) {
      MentionsCarryOver(w, merged, theirs, q);
    }
    CommitAbsorbs(w, g, me, shelf, ours, PlanPut(w, g, shelf, m, es).value, offered, now);
  }

  // ---- both directions ----

  /** What two shelves of one group have in common after the exchange. */
  ghost predicate InAgreement(w: World, g: GroupId, a: Shelf, b: Shelf) {
    && a.row.Some? && b.row.Some?
    && a.row.value.headSeq == b.row.value.headSeq
    && a.row.value.headHash == b.row.value.headHash
    && a.row.value.digest == b.row.value.digest
    && a.members == b.members
    && SameStatements(ReadStandings(w, a.standings), ReadStandings(w, b.standings))
    && (exists la, lb :: Stores(w, g, a, la) && Stores(w, g, b, lb)
                         && |la.entries| == |lb.entries| && AgreeBelow(la, lb, |la.entries|))
  }

  lemma SameRanksSameStatements(w: World, g: GroupId, a: map<Peer, StandingRow>, b: map<Peer, StandingRow>)
    requires Genuine(w, g, a) && Genuine(w, g, b)
    requires forall p :: RankIn(a, p) == RankIn(b, p)
    ensures SameStatements(ReadStandings(w, a), ReadStandings(w, b))
  {
    GenuineReadsWhole(w, g, a);
    GenuineReadsWhole(w, g, b);
    var x, y := ReadStandings(w, a), ReadStandings(w, b);
    forall p ensures p in x <==> p in y {
      assert RankIn(a, p) == RankIn(b, p);
    }
    assert x.Keys == y.Keys;
    forall p | p in x
      ensures x[p].standing.body == y[p].standing.body && x[p].seqNo == y[p].seqNo
              && x[p].position == y[p].position && x[p].username == y[p].username
    {
      assert RankIn(a, p) == RankIn(b, p);
      assert Faithful(w, x[p]) && Faithful(w, y[p]);
    }
  }

  lemma SameStatementsSameTables(w: World, m: Roster, x: Register, y: Register)
    requires SameStatements(x, y)
    ensures Named(m, x) == Named(m, y) && DigestOf(w, m, x) == DigestOf(w, m, y)
  {
    SaidIgnoresOthers(m.Keys, x, y);
  }

  lemma SameLengthAgreement(w: World, la: Log, lb: Log)
    requires ValidLog(w, la) && ValidLog(w, lb)
    requires |la.entries| == |lb.entries| && AgreeBelow(la, lb, |la.entries|)
    ensures la.Members() == lb.Members() && la.Head() == lb.Head()
  {
    AgreeingLogs(w, la, lb, |la.entries|);
    assert la.entries[..|la.entries|] == la.entries && lb.entries[..|lb.entries|] == lb.entries;
  }

  lemma AgreementOf(w: World, g: GroupId, a: Shelf, la: Log, b: Shelf, lb: Log)
    requires Healthy(w, g, a, la) && Healthy(w, g, b, lb)
    requires |la.entries| == |lb.entries| && AgreeBelow(la, lb, |la.entries|)
    requires SameStatements(ReadStandings(w, a.standings), ReadStandings(w, b.standings))
    ensures InAgreement(w, g, a, b)
  {
    SameLengthAgreement(w, la, lb);
    SameStatementsSameTables(w, la.Members(), ReadStandings(w, a.standings), ReadStandings(w, b.standings));
  }

  /** One side takes in what the other serves it, then the other what the first now serves. Two
      healthy members whose logs agree end with the same head, the same members by the same names,
      the same statement of every member and the same digest. */
  lemma TwoWayExchangeConverges(
      w: World, g: GroupId, meA: Peer, a: Shelf, la: Log, meB: Peer, b: Shelf, lb: Log, nowA: int, nowB: int)
    requires Healthy(w, g, a, la) && Healthy(w, g, b, lb) && Agree(la, lb)
    requires meA in a.members && meB in a.members && meA in b.members && meB in b.members
    ensures var first := Serve(w, meB, g, b, meA, |la.entries|);
            && first.Ok? && first.value.Some?
            && var forA := first.value.value;
               var (a', ra) := PutShelf(w, meA, g, a, |la.entries|, forA.entries, forA.standings, nowA);
            && ra.Ok?
            && var second := Serve(w, meA, g, a', meB, |lb.entries|);
            && second.Ok? && second.value.Some?
            && var forB := second.value.value;
               var (b', rb) := PutShelf(w, meB, g, b, |lb.entries|, forB.entries, forB.standings, nowB);
            rb.Ok? && InAgreement(w, g, a', b')
  {
    ServesMembersEverything(w, g, meB, b, lb, meA, |la.entries|);
    PutAbsorbs(w, g, meA, a, la, lb, b.standings, nowA);
    var es := Between(lb, |la.entries|, |lb.entries|);
    var a' := PutShelf(w, meA, g, a, |la.entries|, es, StandingsOf(b.standings), nowA).0;
    SecondHalfConverges(w, g, meA, a, la, a', meB, b, lb, nowB);
  }

  lemma MergedServes(w: World, g: GroupId, a: Shelf, la: Log, a': Shelf, b: Shelf, lb: Log, p: Peer)
    requires Healthy(w, g, a, la) && Healthy(w, g, b, lb) && Agree(la, lb)
    requires p in a.members && p in b.members
    requires Healthy(w, g, a', Merged(la, lb))
    ensures p in a'.members
  {
    if |la.entries| < |lb.entries| {
      SpliceIsValid(w, la, lb, |lb.entries|);
      AgreeingLogs(w, Merged(la, lb), lb, |lb.entries|);
      assert lb.entries[..|lb.entries|] == lb.entries;
      assert Merged(la, lb).entries[..|lb.entries|] == Merged(la, lb).entries;
    }
  }

  lemma SecondHalfConverges(
      w: World, g: GroupId, meA: Peer, a: Shelf, la: Log, a': Shelf, meB: Peer, b: Shelf, lb: Log, nowB: int)
    requires Healthy(w, g, a, la) && Healthy(w, g, b, lb) && Agree(la, lb)
    requires meA in a.members && meB in a.members && meA in b.members && meB in b.members
    requires Absorbed(w, g, a, a', Merged(la, lb), b.standings)
    ensures var second := Serve(w, meA, g, a', meB, |lb.entries|);
            && second.Ok? && second.value.Some?
            && var forB := second.value.value;
               var (b', rb) := PutShelf(w, meB, g, b, |lb.entries|, forB.entries, forB.standings, nowB);
            rb.Ok? && InAgreement(w, g, a', b')
  {
    var l := Merged(la, lb);
    MergedIsPlanned(w, g, a, la, lb);
    MergedServes(w, g, a, la, a', b, lb, meA);
    MergedServes(w, g, a, la, a', b, lb, meB);
    ServesMembersEverything(w, g, meA, a', l, meB, |lb.entries|);
    PutAbsorbs(w, g, meB, b, lb, l, a'.standings, nowB);
    var es := Between(l, |lb.entries|, |l.entries|);
    var b' := PutShelf(w, meB, g, b, |lb.entries|, es, StandingsOf(a'.standings), nowB).0;
    MergedTwice(w, g, a, la, b, lb);
    BothAbsorbed(w, g, a, a', l, b, b', Merged(lb, l));
  }

  lemma MergedTwice(w: World, g: GroupId, a: Shelf, la: Log, b: Shelf, lb: Log)
    requires Stores(w, g, a, la) && Stores(w, g, b, lb) && Agree(la, lb)
    ensures var l := Merged(la, lb);
            |Merged(lb, l).entries| == |l.entries| && AgreeBelow(Merged(lb, l), l, |l.entries|)
  {
    MergedIsPlanned(w, g, a, la, lb);
    MergedIsPlanned(w, g, b, lb, Merged(la, lb));
  }

  lemma BothAbsorbed(w: World, g: GroupId, a: Shelf, a': Shelf, l: Log, b: Shelf, b': Shelf, l': Log)
    requires Absorbed(w, g, a, a', l, b.standings) && Absorbed(w, g, b, b', l', a'.standings)
    requires |l'.entries| == |l.entries| && AgreeBelow(l', l, |l.entries|)
    ensures InAgreement(w, g, a', b')
  {
    SameLengthAgreement(w, l', l);
    RanksMeet(w, g, a, a', l, b, b', l');
    SameRanksSameStatements(w, g, a'.standings, b'.standings);
    AgreementOf(w, g, a', l, b', l');
  }

  lemma RanksMeet(w: World, g: GroupId, a: Shelf, a': Shelf, l: Log, b: Shelf, b': Shelf, l': Log)
    requires Absorbed(w, g, a, a', l, b.standings) && Absorbed(w, g, b, b', l', a'.standings)
    requires l.Members() == l'.Members()
    ensures forall p :: RankIn(a'.standings, p) == RankIn(b'.standings, p)
  {
    forall p ensures RankIn(a'.standings, p) == RankIn(b'.standings, p) {
      BestIsJoin(RankIn(a.standings, p), RankIn(b.standings, p));
    }
  }

  // ---- silence is agreement ----

  function HeadOf(g: GroupId, row: GroupRow): GroupHead {
    GroupHead(g, row.headSeq, row.headHash, row.digest)
  }

  /** Whether a head a peer names makes this node fetch the group from it. */
  predicate WorthFetching(row: Option<GroupRow>, head: GroupHead) {
    row.None? || head.headSeq > row.value.headSeq || head.standings != row.value.digest
  }

  lemma AgreementIsSilent(w: World, g: GroupId, a: Shelf, b: Shelf)
    requires InAgreement(w, g, a, b)
    ensures !WorthFetching(a.row, HeadOf(g, b.row.value)) && !WorthFetching(b.row, HeadOf(g, a.row.value))
  {
  }

  /** Two members whose logs agree find nothing to fetch from each other exactly when they have the
      same log and their members have said the same things. */
  lemma SilenceIsAgreement(w: World, g: GroupId, a: Shelf, la: Log, b: Shelf, lb: Log)
    requires SelfDelimiting(w)
    requires Healthy(w, g, a, la) && Healthy(w, g, b, lb) && Agree(la, lb)
    ensures !WorthFetching(a.row, HeadOf(g, b.row.value)) && !WorthFetching(b.row, HeadOf(g, a.row.value)) <==>
            && |la.entries| == |lb.entries|
            && AgreeBelow(la, lb, |la.entries|)
            && Said(a.members.Keys, ReadStandings(w, a.standings))
               == Said(b.members.Keys, ReadStandings(w, b.standings))
  {
    DigestDeterminesStatements(
      w, la.Members(), ReadStandings(w, a.standings), lb.Members(), ReadStandings(w, b.standings));
    assert a.members.Keys == la.Members().Keys && b.members.Keys == lb.Members().Keys;
  }
}
