/** What the group sync machine does with each event, said of heads, logs and statements and not of its steps
    (crates/ac-groups/src/sync.rs). */
module SyncLaws {
  import opened Base
  import opened Wire
  import opened Standings
  import opened Memberships
  import opened Chains
  import opened ChainLaws
  import opened Tables
  import opened StoreLaws
  import opened Runs
  import opened Convergence
  import opened Exchange
  import opened StoreReports
  import opened Slots
  import opened Asking
  import opened Sync
  import Store

  // ---- heads ----

  /** An answer of heads from a ready peer makes this node ask that peer for exactly the groups it tells
      something new of and the groups it should have named and did not. From any other peer it does nothing. */
  lemma HeadsLeadToFetches(
      w: World, me: Peer, username: Name, at: int, peer: Peer, heads: seq<GroupHead>, admitted: AdmittedPeers,
      clock: int, s: Slots, db: Db, s': Slots, db': Db, actions: seq<GroupAction>)
    requires Bounded(s) && Busy(s)
    requires Reaction(w, me, username, at, Heads(peer, heads), admitted, clock, s, db, s', db', actions)
    ensures db' == db
    ensures peer in admitted.ready ==>
              var wanted := News(db, Counting(heads)) + Unnamed(db, peer, Counting(heads));
              && Asks(s, s', actions, db, peer, wanted, clock) && Bounded(s') && Busy(s')
              && Draining(s', db', admitted, clock) == (s', [])
    ensures peer !in admitted.ready ==> s' == s && actions == []
  {
    if peer in admitted.ready {
      var omitted :| IsListing(omitted, db, peer, GroupsOf(Limited(heads)))
        && var named := FetchingHeads(s, db, peer, Limited(heads), clock);
           var rest := FetchingGroups(named.0, db, peer, omitted, clock);
           s' == rest.0 && actions == named.1 + rest.1;
      HeadsAndOmissionsAreAskedFor(s, db, peer, heads, omitted, clock);
    }
  }

  /** The head is that of a shelf with which ours is in agreement. */
  ghost predicate AgreesWith(w: World, shelf: Shelf, head: GroupHead) {
    exists theirs :: InAgreement(w, head.group, shelf, theirs) && head == HeadOf(head.group, theirs.row.value)
  }

  /** A peer that is in agreement on every group, and names every group that counts it in, is asked nothing. */
  lemma AgreementIsQuiet(
      w: World, me: Peer, username: Name, at: int, peer: Peer, heads: seq<GroupHead>, admitted: AdmittedPeers,
      clock: int, s: Slots, db: Db, s': Slots, db': Db, actions: seq<GroupAction>)
    requires Bounded(s) && Busy(s)
    requires Reaction(w, me, username, at, Heads(peer, heads), admitted, clock, s, db, s', db', actions)
    requires forall i :: 0 <= i < |heads| ==> AgreesWith(w, At(db, heads[i].group), heads[i])
    requires |heads| <= 128 && forall g :: g in db && db[g].row.Some? && peer in db[g].members ==>
               exists i :: 0 <= i < |heads| && heads[i].group == g
    ensures s' == s && db' == db && actions == []
  {
    HeadsLeadToFetches(w, me, username, at, peer, heads, admitted, clock, s, db, s', db', actions);
    if peer in admitted.ready {
      NoNewsInAgreement(w, db, heads);
      assert Unnamed(db, peer, heads) == {};
      assert News(db, heads) + Unnamed(db, peer, heads) == {};
      AskingForNothing(s, s', actions, db, peer, clock);
    }
  }

  lemma NoNewsInAgreement(w: World, db: Db, heads: seq<GroupHead>)
    requires forall i :: 0 <= i < |heads| ==> AgreesWith(w, At(db, heads[i].group), heads[i])
    ensures News(db, heads) == {}
  {
    forall i | 0 <= i < |heads| ensures !NewsTo(At(db, heads[i].group).row, heads[i]) {
      assert AgreesWith(w, At(db, heads[i].group), heads[i]);
    }
  }

  // ---- answers ----

  /** An answer that no fetch is out for, to that peer and from that position, changes nothing. */
  lemma UnaskedAnswersChangeNothing(
      w: World, me: Peer, username: Name, at: int, peer: Peer, g: GroupId, from: nat, es: seq<Entry>,
      ss: seq<Standing>, admitted: AdmittedPeers, clock: int, s: Slots, db: Db, s': Slots, db': Db,
      actions: seq<GroupAction>)
    requires Reaction(w, me, username, at, Entries(peer, g, from, es, ss), admitted, clock, s, db, s', db', actions)
    requires g !in s.inflight || s.inflight[g].peer != peer || s.inflight[g].from != from
    ensures s' == s && db' == db && actions == []
  {
  }

  /** An answer that was waited for, of a member whose log agrees, leaves this node with the longer log and
      of every member the better statement; unless it is the admin or yet to answer an invitation, that is
      all it does. */
  lemma AnswersAreAbsorbed(
      w: World, me: Peer, username: Name, at: int, peer: Peer, g: GroupId, es: seq<Entry>, ss: seq<Standing>,
      admitted: AdmittedPeers, clock: int, s: Slots, db: Db, s': Slots, db': Db, actions: seq<GroupAction>,
      la: Log, theirs: Shelf, lb: Log)
    requires Healthy(w, g, At(db, g), la) && Healthy(w, g, theirs, lb) && Agree(la, lb)
    requires es == Between(lb, |la.entries|, |lb.entries|) && ss == StandingsOf(theirs.standings)
    requires Reaction(
               w, me, username, at, Entries(peer, g, |la.entries|, es, ss), admitted, clock, s, db, s', db', actions)
    requires g in s.inflight && s.inflight[g].peer == peer && s.inflight[g].from == |la.entries|
    requires me != la.admin && At(db, g).row.value.state != Pending
    ensures Absorbed(w, g, At(db, g), At(db', g), Merged(la, lb), theirs.standings)
    ensures forall h :: h != g ==> At(db', h) == At(db, h)
    ensures s' == s.(inflight := s.inflight - {g}) && actions == []
  {
    PutAbsorbs(w, g, me, At(db, g), la, lb, theirs.standings, at);
    MergedIsPlanned(w, g, At(db, g), la, lb);
    var (after, r) := PutShelf(w, me, g, At(db, g), |la.entries|, es, ss, at);
    PuttingIngests(w, me, username, db, g, la, |la.entries|, es, ss, at, Merged(la, lb));
    assert At(db', g) == after;
  }

  lemma PuttingIngests(
      w: World, me: Peer, username: Name, db: Db, g: GroupId, la: Log, from: nat, es: seq<Entry>, ss: seq<Standing>,
      at: int, next: Log)
    requires Stores(w, g, At(db, g), la) && me != la.admin && At(db, g).row.value.state != Pending
    requires PutShelf(w, me, g, At(db, g), from, es, ss, at).1.Ok?
    requires Stores(w, g, PutShelf(w, me, g, At(db, g), from, es, ss, at).0, next) && next.admin == la.admin
    ensures Outcome(w, me, db, g, from, es, ss, at).Ok?
    ensures Ingested(w, me, username, db, g, from, es, ss, at)
            == db[g := PutShelf(w, me, g, At(db, g), from, es, ss, at).0]
  {
    PutsTouchTheRow(w, me, g, At(db, g), la, from, es, ss, at);
    var (after, r) := PutShelf(w, me, g, At(db, g), from, es, ss, at);
    assert Stored(w, me, db, g, from, es, ss, at) == db[g := after];
    assert At(db[g := after], g) == after;
  }

  /** An answer from beyond the end of our log changes no table, and the group is asked for again at once
      from where our log does end. */
  lemma GapsAreAskedAgain(
      w: World, me: Peer, username: Name, at: int, peer: Peer, g: GroupId, from: nat, es: seq<Entry>,
      ss: seq<Standing>, admitted: AdmittedPeers, clock: int, s: Slots, db: Db, s': Slots, db': Db,
      actions: seq<GroupAction>, log: Log)
    requires Bounded(s) && Stores(w, g, At(db, g), log) && from > |log.entries|
    requires Reaction(w, me, username, at, Entries(peer, g, from, es, ss), admitted, clock, s, db, s', db', actions)
    requires g in s.inflight && s.inflight[g].peer == peer && s.inflight[g].from == from
    ensures db' == db && actions == [Fetch(peer, g, |log.entries|)]
    ensures s' == s.(inflight := s.inflight[g := InFlight(peer, |log.entries|, clock + 30)])
  {
    StoredLogIsRead(w, g, At(db, g), log);
    SubmapIsSmaller(s.inflight - {g}, s.inflight);
    assert PlanPut(w, g, At(db, g), from, es) == Err(Gap(|log.entries|, from));
    assert s.inflight == (s.inflight - {g})[g := s.inflight[g]];
    assert (s.inflight - {g})[g := InFlight(peer, |log.entries|, clock + 30)]
        == s.inflight[g := InFlight(peer, |log.entries|, clock + 30)];
  }

  /** A log that is new here and valid is kept whole, as a pending group. */
  lemma NewLogsAreAdopted(
      w: World, me: Peer, username: Name, at: int, peer: Peer, g: GroupId, from: nat, es: seq<Entry>,
      ss: seq<Standing>, admitted: AdmittedPeers, clock: int, s: Slots, db: Db, s': Slots, db': Db,
      actions: seq<GroupAction>, log: Log)
    requires InStep(w, g, At(db, g)) && At(db, g).row.None?
    requires ValidLog(w, log) && log.Raw() == es && log.id == g && me != log.admin
    requires Reaction(w, me, username, at, Entries(peer, g, from, es, ss), admitted, clock, s, db, s', db', actions)
    requires g in s.inflight && s.inflight[g].peer == peer && s.inflight[g].from == from
    ensures Stores(w, g, At(db', g), log) && At(db', g).row.value.state == Pending && actions == []
  {
    LoadIsValidity(w, es, log);
    AdoptingIngests(w, me, username, db, g, from, es, ss, at, log);
  }

  lemma AdoptingIngests(
      w: World, me: Peer, username: Name, db: Db, g: GroupId, from: nat, es: seq<Entry>, ss: seq<Standing>, at: int,
      log: Log)
    requires InStep(w, g, At(db, g)) && At(db, g).row.None?
    requires ValidLog(w, log) && LoadLog(w, es) == Ok(log) && log.id == g && me != log.admin
    ensures Outcome(w, me, db, g, from, es, ss, at).Ok?
    ensures var after := At(Ingested(w, me, username, db, g, from, es, ss, at), g);
            Stores(w, g, after, log) && after.row.value.state == Pending
  {
    AdoptKeepsStep(w, me, At(db, g), log, es, ss, at);
    var (after, r) := AdoptShelf(w, me, At(db, g), log, es, ss, at);
    AdoptingStores(w, me, db, g, from, es, ss, at, log);
    AnsweringKeepsTheLog(w, me, username, db[g := after], g, at, log);
    SettlingOthersGroups(w, me, username, db[g := after], g, r.value, at, log);
  }

  lemma AdoptingStores(
      w: World, me: Peer, db: Db, g: GroupId, from: nat, es: seq<Entry>, ss: seq<Standing>, at: int, log: Log)
    requires At(db, g).row.None? && LoadLog(w, es) == Ok(log) && log.id == g
    ensures var (after, r) := AdoptShelf(w, me, At(db, g), log, es, ss, at);
            && Outcome(w, me, db, g, from, es, ss, at) == r
            && Stored(w, me, db, g, from, es, ss, at) == db[g := after] && At(db[g := after], g) == after
  {
    Store.AdoptingIsDoing(w, me, db, es, ss, at);
  }

  lemma SettlingOthersGroups(
      w: World, me: Peer, username: Name, db: Db, g: GroupId, applied: Applied, at: int, log: Log)
    requires Stores(w, g, At(db, g), log) && Cached(w, At(db, g), log) && me != log.admin
    ensures Settled(w, me, username, db, g, applied, at) == InvitationAnswered(w, me, username, db, g, at)
  {
    AnsweringKeepsTheLog(w, me, username, db, g, at, log);
  }

  lemma AnsweringKeepsTheLog(w: World, me: Peer, username: Name, db: Db, g: GroupId, at: int, log: Log)
    requires Stores(w, g, At(db, g), log) && Cached(w, At(db, g), log)
    ensures var after := At(InvitationAnswered(w, me, username, db, g, at), g);
            Stores(w, g, after, log) && after.row.value.state == At(db, g).row.value.state
  {
    var shelf := At(db, g);
    AnsweringIsSaying(w, me, username, db, g, at);
    AuthorStandingKeepsStep(w, me, g, shelf, me, Unanswered, username, at);
    if SayPosition(w, me, g, shelf, me, Unanswered, username, at).Ok? {
      PositionsAreRecorded(w, me, g, shelf, log, me, Unanswered, username, at);
    }
  }

  /** Whether there is an invitation to answer, and an answer that can be made. */
  predicate Answers(w: World, me: Peer, username: Name, g: GroupId, shelf: Shelf, at: int) {
    && shelf.row.Some? && shelf.row.value.state == Pending && me in shelf.members && me !in shelf.standings
    && SayPosition(w, me, g, shelf, me, Unanswered, username, at).Ok?
  }

  lemma AnsweringIsSaying(w: World, me: Peer, username: Name, db: Db, g: GroupId, at: int)
    ensures InvitationAnswered(w, me, username, db, g, at) ==
            if Answers(w, me, username, g, At(db, g), at)
            then db[g := AuthorStandingShelf(w, me, g, At(db, g), me, Unanswered, username, at).0] else db
  {
    Saying(w, me, db, g, Unanswered, username, at);
  }

  lemma Saying(w: World, me: Peer, db: Db, g: GroupId, position: Position, username: Name, at: int)
    ensures var (after, r) := AuthorStandingShelf(w, me, g, At(db, g), me, position, username, at);
            Do(w, me, db, DoSay(g, position, username, at))
            == if SayPosition(w, me, g, At(db, g), me, position, username, at).Ok? then db[g := after] else db
  {
    Store.SayingIsDoing(w, me, db, g, position, username, at);
    NeverAStandingFault(w, g, At(db, g));
  }

  lemma NeverAStandingFault(w: World, g: GroupId, shelf: Shelf)
    ensures ReadChain(w, g, shelf).Err? ==> !ReadChain(w, g, shelf).error.StandingFault?
  {
  }

  /** An invitation is answered once: a node that is in, pending and silent says that it has not decided, if
      it can say anything. In every other case it says nothing. */
  lemma InvitationsAreAnsweredOnce(w: World, me: Peer, username: Name, db: Db, g: GroupId, at: int, log: Log)
    requires Stores(w, g, At(db, g), log) && Cached(w, At(db, g), log)
    ensures var shelf := At(db, g);
            var after := InvitationAnswered(w, me, username, db, g, at);
            && (Answers(w, me, username, g, shelf, at) ==>
                  var (s, body) := SayPosition(w, me, g, shelf, me, Unanswered, username, at).value;
                  && me in At(after, g).standings
                  && At(after, g).standings[me] == StandingRow(body.seqNo, body.position, s)
                  && !Answers(w, me, username, g, At(after, g), at))
            && (!Answers(w, me, username, g, shelf, at) ==> after == db)
  {
    AnsweringIsSaying(w, me, username, db, g, at);
    var shelf := At(db, g);
    assert shelf.members.Keys == log.Members().Keys;
    if Answers(w, me, username, g, shelf, at) {
      OnlyOneStatementIsReplaced(w, me, g, shelf, log, me, Unanswered, username, at, me);
    }
  }

  // ---- refusals, failures and time ----

  /** A refusal or a failure ends the fetch it is about, if that is out to this very peer; the rest stays. */
  lemma FailuresEndTheirFetch(
      w: World, me: Peer, username: Name, at: int, event: GroupEvent, admitted: AdmittedPeers, clock: int,
      s: Slots, db: Db, s': Slots, db': Db, actions: seq<GroupAction>)
    requires event.Unavailable? || event.FetchFailed? || event.AskFailed?
    requires Reaction(w, me, username, at, event, admitted, clock, s, db, s', db', actions)
    ensures db' == db && actions == [] && s'.deferred == s.deferred
    ensures forall g :: g in s'.inflight <==>
              && g in s.inflight
              && !(!event.AskFailed? && g == event.group && s.inflight[g].peer == event.peer)
    ensures forall g :: g in s'.inflight ==> s'.inflight[g] == s.inflight[g]
  {
  }

  /** A tick ends exactly the fetches that are late or whose peer is not ready, drops exactly the queued ones
      whose peer is gone, and forgets exactly the groups that have been pending for thirty days without
      counting this node in. */
  lemma TicksEndTheOverdue(
      w: World, me: Peer, username: Name, at: int, now: int, later: int, admitted: AdmittedPeers, clock: int,
      s: Slots, db: Db, s': Slots, db': Db, actions: seq<GroupAction>)
    requires Reaction(w, me, username, at, Tick(now, later), admitted, clock, s, db, s', db', actions)
    ensures actions == []
    ensures forall g :: g in s'.inflight <==>
              g in s.inflight && now < s.inflight[g].deadline && s.inflight[g].peer in admitted.ready
    ensures forall g :: g in s'.inflight ==> s'.inflight[g] == s.inflight[g]
    ensures forall x :: x in s'.deferred <==> x in s.deferred && x.0 in admitted.ready + admitted.settling
    ensures forall g :: g in db' <==>
              && g in db
              && !(&& db[g].row.Some? && db[g].row.value.state == Pending
                   && later - db[g].row.value.firstSeen >= 30 * 24 * 60 * 60 && me !in db[g].members)
    ensures forall g :: g in db' ==> db'[g] == db[g]
  {
    KeptIsPart(s.deferred, admitted);
  }

  /** What stays queued stays in its order. */
  lemma {:induction false} KeptIsInOrder(
      queue: seq<(Peer, GroupId)>, admitted: AdmittedPeers, i: nat, j: nat) returns (x: nat, y: nat)
    requires i < j < |Kept(queue, admitted)|
    ensures x < y < |queue| && queue[x] == Kept(queue, admitted)[i] && queue[y] == Kept(queue, admitted)[j]
    decreases |queue|
  {
    var rest := Kept(queue[1..], admitted);
    if !admitted.IsAdmitted(queue[0].0) {
      x, y := KeptIsInOrder(queue[1..], admitted, i, j);
      x, y := x + 1, y + 1;
    } else if i > 0 {
      x, y := KeptIsInOrder(queue[1..], admitted, i - 1, j - 1);
      x, y := x + 1, y + 1;
    } else {
      KeptIsPart(queue[1..], admitted);
      assert Kept(queue, admitted)[j] == rest[j - 1] && rest[j - 1] in queue[1..];
      var k :| 0 <= k < |queue| - 1 && queue[1..][k] == rest[j - 1];
      x, y := 0, k + 1;
    }
  }
}
