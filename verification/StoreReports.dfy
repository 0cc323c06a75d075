/** What the operations of the store report, and what they leave in a group's row, said of logs, members and
    statements and not of the steps (crates/ac-groups/src/store.rs). */
module StoreReports {
  import opened Base
  import opened Wire
  import opened Standings
  import opened Memberships
  import opened Chains
  import opened ChainLaws
  import opened Tables
  import opened StoreLaws
  import opened Runs
  import opened Convergence
  import opened Exchange

  // ---- put ----

  lemma {:induction false} AscendingAscends(s: set<nat>)
    ensures forall x :: x in Ascending(s) <==> x in s
    ensures forall i, j :: 0 <= i < j < |Ascending(s)| ==> Ascending(s)[i] < Ascending(s)[j]
  {
    if s != {} {
      AscendingAscends(s - {Least(s)});
      var rest := Ascending(s - {Least(s)});
      assert forall j :: 0 <= j < |rest| ==> rest[j] in rest;
    }
  }

  /** Exactly these peers, each once and in ascending order. */
  ghost predicate ListsPeers(peers: seq<Peer>, all: set<Peer>) {
    && (forall p :: p in peers <==> p in all)
    && (forall i, j :: 0 <= i < j < |peers| ==> peers[i] < peers[j])
  }

  /** What a `put` that went through says: how many entries are new and how long the log is now, who came in
      by them and who went out, and whether that was this node. */
  lemma PutsReport(
      w: World, me: Peer, g: GroupId, shelf: Shelf, plan: PutPlan, base: Log, standings: seq<Standing>, now: int)
    requires PlannedFrom(w, g, plan, base) && CommitPut(w, me, g, shelf, plan, standings, now).Ok?
    ensures var said := CommitPut(w, me, g, shelf, plan, standings, now).value.1;
            var (before, after) := (base.Members().Keys, plan.log.Members().Keys);
            && said.accepted == |plan.log.entries| - |base.entries| && said.headSeq == |plan.log.entries|
            && ListsPeers(said.added, after - before) && ListsPeers(said.removed, before - after)
            && (said.weJoined <==> me in after - before) && (said.weLost <==> me in before - after)
  {
    AscendingAscends(plan.log.Members().Keys - plan.before.Keys);
    AscendingAscends(plan.before.Keys - plan.log.Members().Keys);
    assert |plan.log.Raw()| == |plan.log.entries| && |base.Raw()| == |base.entries|;
  }

  /** A `put` moves the head, the digest, the name and the time of the last exchange, and nothing else of
      the group's row. */
  lemma PutsTouchTheRow(
      w: World, me: Peer, g: GroupId, shelf: Shelf, log: Log, from: nat, es: seq<Entry>, standings: seq<Standing>,
      now: int)
    requires Stores(w, g, shelf, log)
    ensures var (after, r) := PutShelf(w, me, g, shelf, from, es, standings, now);
            r.Ok? ==>
              && after.row.Some? && after.row.value.lastSynced == now
              && after.row.value.state == shelf.row.value.state && after.row.value.news == shelf.row.value.news
              && after.row.value.firstSeen == shelf.row.value.firstSeen
  {
  }

  /** The statement is an acceptable one of `p` and outranks what was held of `p` and every one of `p` that
      came before it. */
  ghost predicate NewWord(w: World, g: GroupId, log: Log, held: Register, ss: seq<Standing>, i: nat, p: Peer) {
    && i < |ss| && Counts(w, g, log, ss[i], p)
    && (p in held ==> Wins(RankOf(w, ss[i]), held[p].Rank()))
    && (forall j :: 0 <= j < i && Counts(w, g, log, ss[j], p) ==> Wins(RankOf(w, ss[i]), RankOf(w, ss[j])))
  }

  /** The statement is `p`'s own, and the log has mentioned `p`. */
  predicate Counts(w: World, g: GroupId, log: Log, s: Standing, p: Peer) {
    && w.StandingBodyOf(s).Some? && SaidBy(w, g, p, s, w.StandingBodyOf(s).value)
    && (p in log.Members() || Departure(log.entries, p).Some?)
  }

  function RankOf(w: World, s: Standing): Rank {
    (if w.StandingBodyOf(s).Some? then w.StandingBodyOf(s).value.seqNo else 0, s.body)
  }

  /** The statement is `p`'s new word, and the word is that it is out. */
  ghost predicate NewlyOut(w: World, g: GroupId, log: Log, held: Register, ss: seq<Standing>, i: nat, p: Peer) {
    NewWord(w, g, log, held, ss, i, p) && w.StandingBodyOf(ss[i]).value.position == Out
  }

  lemma CountingIsAdmissible(w: World, g: GroupId, log: Log, s: Standing, p: Peer)
    requires ValidLog(w, log)
    ensures Counts(w, g, log, s, p) <==> Admissible(w, g, log, s) && OfferOf(w, g, log, s).peer == p
    ensures Counts(w, g, log, s, p) ==> OfferOf(w, g, log, s).held.Rank() == RankOf(w, s)
  {
    EveryPeerHasOneStatus(w, log, p);
  }

  /** Whether a statement wins its place in the register, said of the batch. */
  lemma WinningIsNewWord(w: World, g: GroupId, log: Log, held: Register, ss: seq<Standing>, i: nat, p: Peer)
    requires ValidLog(w, log) && i < |ss| && Counts(w, g, log, ss[i], p)
    ensures var m := RecordAll(held, OffersOf(w, g, log, ss[..i]));
            NewWord(w, g, log, held, ss, i, p) <==> p !in m || Wins(RankOf(w, ss[i]), m[p].Rank())
  {
    var front := ss[..i];
    var offers := OffersOf(w, g, log, front);
    var m := RecordAll(held, offers);
    var rank := RankOf(w, ss[i]);
    RecordAllHoldsTheMaximum(held, offers, p);
    if p !in m || Wins(rank, m[p].Rank()) {
      forall other | Offered(held, offers, p, other) ensures Wins(rank, other) {
        WinsIsStrictTotal(rank, m[p].Rank(), other);
      }
      forall j | 0 <= j < i && Counts(w, g, log, ss[j], p) ensures Wins(rank, RankOf(w, ss[j])) {
        SpokenIsOffered(w, g, log, held, front, j, p);
      }
      if p in held {
        assert Offered(held, offers, p, held[p].Rank());
      }
    } else {
      var top := m[p].Rank();
      assert Offered(held, offers, p, top);
      if !(p in held && held[p].Rank() == top) {
        var j := OfferedIsSpoken(w, g, log, held, front, p, top);
        assert ss[j] == front[j];
      }
    }
  }

  lemma SpokenIsOffered(w: World, g: GroupId, log: Log, held: Register, ss: seq<Standing>, j: nat, p: Peer)
    requires ValidLog(w, log) && j < |ss| && Counts(w, g, log, ss[j], p)
    ensures Offered(held, OffersOf(w, g, log, ss), p, RankOf(w, ss[j]))
  {
    CountingIsAdmissible(w, g, log, ss[j], p);
    var o := OfferOf(w, g, log, ss[j]);
    OffersAreStatements(w, g, log, ss, o);
    var offers := OffersOf(w, g, log, ss);
    var k :| 0 <= k < |offers| && offers[k] == o;
  }

  lemma OfferedIsSpoken(w: World, g: GroupId, log: Log, held: Register, ss: seq<Standing>, p: Peer, rank: Rank)
    returns (j: nat)
    requires ValidLog(w, log) && Offered(held, OffersOf(w, g, log, ss), p, rank)
    requires !(p in held && held[p].Rank() == rank)
    ensures j < |ss| && Counts(w, g, log, ss[j], p) && RankOf(w, ss[j]) == rank
  {
    var offers := OffersOf(w, g, log, ss);
    var k :| 0 <= k < |offers| && offers[k].peer == p && offers[k].held.Rank() == rank;
    OffersAreStatements(w, g, log, ss, offers[k]);
    var s :| s in ss && Admissible(w, g, log, s) && OfferOf(w, g, log, s) == offers[k];
    CountingIsAdmissible(w, g, log, s, p);
    j :| 0 <= j < |ss| && ss[j] == s;
  }

  /** Whose departure a batch of statements tells: the members whose new word it brings that they are out. */
  lemma {:induction false} DeparturesAreNoticed(
      w: World, g: GroupId, log: Log, members: Roster, so: Intake, ss: seq<Standing>, p: Peer)
    requires ValidLog(w, log)
    ensures p in TakeAll(w, g, log, members, so, ss).departed
            <==> p in so.departed || (p in members && exists i: nat :: NewlyOut(w, g, log, so.held, ss, i, p))
  {
    if ss != [] {
      var last := |ss| - 1;
      var front := ss[..last];
      assert ss == front + [ss[last]];
      DeparturesAreNoticed(w, g, log, members, so, front, p);
      TakeAllSnoc(w, g, log, members, so, front, ss[last]);
      TakeAllIsRecordAll(w, g, log, members, so, front);
      forall i: nat | i < last ensures NewlyOut(w, g, log, so.held, front, i, p)
                                       <==> NewlyOut(w, g, log, so.held, ss, i, p) {
        assert forall j :: 0 <= j <= i ==> front[j] == ss[j];
      }
      LastWordNoticed(w, g, log, members, TakeAll(w, g, log, members, so, front), so.held, ss, p);
      assert (exists i: nat :: NewlyOut(w, g, log, so.held, ss, i, p))
          <==> (exists i: nat :: NewlyOut(w, g, log, so.held, front, i, p))
               || NewlyOut(w, g, log, so.held, ss, last, p) by {
        if i: nat :| NewlyOut(w, g, log, so.held, ss, i, p) {
          assert i < last ==> NewlyOut(w, g, log, so.held, front, i, p);
        }
        if i: nat :| NewlyOut(w, g, log, so.held, front, i, p) {
          assert NewlyOut(w, g, log, so.held, ss, i, p);
        }
      }
    }
  }

  lemma LastWordNoticed(
      w: World, g: GroupId, log: Log, members: Roster, so: Intake, held: Register, ss: seq<Standing>, p: Peer)
    requires ValidLog(w, log) && ss != []
    requires so.held == RecordAll(held, OffersOf(w, g, log, ss[..|ss| - 1]))
    ensures p in TakeIn(w, g, log, members, so, ss[|ss| - 1]).departed
            <==> p in so.departed || (p in members && NewlyOut(w, g, log, held, ss, |ss| - 1, p))
  {
    var last := |ss| - 1;
    CountingIsAdmissible(w, g, log, ss[last], p);
    if Counts(w, g, log, ss[last], p) {
      WinningIsNewWord(w, g, log, held, ss, last, p);
    }
  }

  /** Why a slice of a log of the group is refused: it leaves a gap after ours, or at the position named is
      the first of its entries that is not ours. */
  lemma RefusedSlicesNameThePlace(
      w: World, g: GroupId, shelf: Shelf, ours: Log, theirs: Log, from: nat, to: nat, k: nat)
    requires Stores(w, g, shelf, ours) && ValidLog(w, theirs) && from <= to <= |theirs.entries|
    ensures var plan := PlanPut(w, g, shelf, from, theirs.Raw()[from..to]);
            && (plan == Err(Gap(|ours.entries|, from)) <==> from > |ours.entries|)
            && (plan == Err(Diverged(g, k)) <==>
                  && from <= k < to && k < |ours.entries|
                  && ours.entries[k].entry.body != theirs.entries[k].entry.body
                  && forall j :: from <= j < k ==> ours.entries[j].entry.body == theirs.entries[j].entry.body)
  {
    StoredLogIsRead(w, g, shelf, ours);
    var es := theirs.Raw()[from..to];
    var n := Overlap(|ours.entries|, from, |es|);
    FirstDifferenceFinds(w, ours, theirs, from, es, 0, n);
  }

  lemma {:induction false} FirstDifferenceFinds(
      w: World, ours: Log, theirs: Log, from: nat, es: seq<Entry>, i: nat, n: nat)
    requires ValidLog(w, ours) && i <= n <= |es| && from + n <= |theirs.entries|
    requires forall j :: 0 <= j < |es| && from + j < |theirs.entries| ==> es[j] == theirs.entries[from + j].entry
    requires i < n ==> from + n <= |ours.entries|
    ensures match FirstDifference(ours, from, es, i, n)
            case Some(k) =>
              && from + i <= k < from + n && ours.entries[k].entry.body != theirs.entries[k].entry.body
              && forall j :: from + i <= j < k ==> ours.entries[j].entry.body == theirs.entries[j].entry.body
            case None =>
              i < n ==>
                forall j :: from + i <= j < from + n ==> ours.entries[j].entry.body == theirs.entries[j].entry.body
    decreases n - i
  {
    if i < n {
      assert Decoded(w, ours.entries[from + i]) by {
        assert from + i > 0 ==> Follows(w, ours, from + i);
      }
      FirstDifferenceFinds(w, ours, theirs, from, es, i + 1, n);
    }
  }

  /** Nothing is put in, or authored for, a group there is no row of. */
  lemma UnknownGroupsAreRefused(
      w: World, me: Peer, g: GroupId, shelf: Shelf, from: nat, es: seq<Entry>, standings: seq<Standing>, key: Peer,
      op: Op, now: int)
    requires shelf.row.None?
    ensures PutShelf(w, me, g, shelf, from, es, standings, now) == (shelf, Err(UnknownGroup(g)))
    ensures AuthorShelf(w, g, shelf, key, op, now) == (shelf, Err(UnknownGroup(g)))
  {
  }

  // ---- author ----

  /** An entry with this body that the key signs, small enough and accepted as signed. */
  ghost predicate SignedAs(w: World, key: Peer, body: EntryBody, entry: Entry) {
    && w.EncodedEntry(body) == Some(entry.body) && w.Signature(key, entry.body) == Some(entry.signature)
    && |entry.body| + |entry.signature| <= 4096
    && w.HasKey(key) && w.Verifies(key, entry.body, entry.signature)
  }

  /** An entry is authored exactly by the admin, for a change that is permitted, and as the next of the log. */
  lemma AuthorsExactly(w: World, g: GroupId, shelf: Shelf, log: Log, key: Peer, op: Op, at: int, entry: Entry)
    requires EncodingsDecode(w) && Stores(w, g, shelf, log)
    ensures AuthorShelf(w, g, shelf, key, op, at).1 == Ok(entry) <==>
            && key == log.admin && Permitted(w, log.admin, log.Members().Keys, op)
            && SignedAs(w, key, EntryBody(g, |log.entries|, log.Head(), at, op), entry)
  {
    StoredLogIsRead(w, g, shelf, log);
    var body := EntryBody(g, |log.entries|, log.Head(), at, op);
    var signed := SignEntry(w, key, body);
    var plan := PlanAuthor(w, g, shelf, key, op, at);
    if signed.Ok? && key == log.admin {
      var v := Verified(signed.value, body, signed.value.Hash());
      assert w.EntryBodyOf(signed.value) == Some(body);
      NextExactly(w, log, v);
      OneMore(w, log, signed.value);
    }
    if plan.Ok? {
      PlanAuthorIsSound(w, g, shelf, log, key, op, at);
      CommitAuthorMovesHead(w, g, shelf, log, plan.value, log, at);
    }
  }

  lemma OneMore(w: World, log: Log, entry: Entry)
    ensures ExtendLog(w, log, [entry])
            == match CheckNext(w, log, entry)
               case Err(e) => Err(e)
               case Ok(v) => Ok(log.(entries := log.entries + [v]))
  {
    assert [entry][1..] == [];
  }

  lemma NextExactly(w: World, log: Log, v: Verified)
    requires ValidLog(w, log) && w.EntryBodyOf(v.entry) == Some(v.body) && v.hash == OfBody(v.entry.body)
    requires v.body.group == log.id && v.body.seqNo == |log.entries| && v.body.prev == log.Head()
    ensures CheckNext(w, log, v.entry).Ok? <==>
            && |v.entry.body| + |v.entry.signature| <= 4096
            && w.HasKey(log.admin) && w.Verifies(log.admin, v.entry.body, v.entry.signature)
            && Permitted(w, log.admin, log.Members().Keys, v.body.op)
    ensures CheckNext(w, log, v.entry).Ok? ==> CheckNext(w, log, v.entry) == Ok(v)
  {
    var next := log.(entries := log.entries + [v]);
    assert next.entries[..|log.entries|] == log.entries;
    CheckNextIsFollows(w, log, v.entry, v);
  }

  /** An authored change is news in the group's row, and was made just now. */
  lemma AuthorsTouchTheRow(w: World, g: GroupId, shelf: Shelf, log: Log, key: Peer, op: Op, at: int)
    requires Stores(w, g, shelf, log)
    ensures var (after, r) := AuthorShelf(w, g, shelf, key, op, at);
            r.Ok? ==>
              && after.row.Some? && after.row.value.lastSynced == at
              && after.row.value.news == shelf.row.value.news + 1
              && after.row.value.state == shelf.row.value.state
              && after.row.value.firstSeen == shelf.row.value.firstSeen
  {
  }

  // ---- a node's own position ----

  /** A position is stated exactly if the name has a proper form and the statement, one past the node's last,
      can be encoded, is signed and is accepted as the node's own. */
  lemma PositionsAreStatedExactly(
      w: World, me: Peer, g: GroupId, shelf: Shelf, position: Position, username: Name, at: int, s: Standing,
      body: StandingBody)
    requires EncodingsDecode(w)
    ensures SayPosition(w, me, g, shelf, me, position, username, at) == Ok((s, body)) <==>
            && Some(body.username) == w.Normalised(username)
            && body == StandingBody(
                         g, Base58(me),
                         if me in shelf.standings then (shelf.standings[me].seqNo + 1) % 0x1_0000_0000_0000_0000 else 1,
                         position, body.username, at)
            && w.EncodedStanding(body) == Some(s.body) && w.Signature(me, s.body) == Some(s.signature)
            && SaidBy(w, g, me, s, body)
  {
    VerifyingIsSaying(w, g, s, body);
  }

  /** A stated position sets the local state that goes with it, and is news. */
  lemma PositionsAreRecorded(
      w: World, me: Peer, g: GroupId, shelf: Shelf, log: Log, key: Peer, position: Position, username: Name, at: int)
    requires Stores(w, g, shelf, log) && Cached(w, shelf, log)
    requires SayPosition(w, me, g, shelf, key, position, username, at).Ok?
    ensures var (s, body) := SayPosition(w, me, g, shelf, key, position, username, at).value;
            var (after, r) := AuthorStandingShelf(w, me, g, shelf, key, position, username, at);
            && r == Ok(s) && after.row.Some? && after.entries == shelf.entries
            && after.row.value.state == (if position.In? then Active else if position.Out? then Left else Pending)
            && after.row.value.news == shelf.row.value.news + 1
            && after.row.value.firstSeen == shelf.row.value.firstSeen
            && after.row.value.lastSynced == shelf.row.value.lastSynced
  {
    var (s, body) := SayPosition(w, me, g, shelf, key, position, username, at).value;
    RefreshedSpeech(w, g, shelf, Speak(me, shelf, s, body, position), log);
  }

  /** It replaces the node's last statement and no other, and is dropped at once if the node is not in. */
  lemma OnlyOneStatementIsReplaced(
      w: World, me: Peer, g: GroupId, shelf: Shelf, log: Log, key: Peer, position: Position, username: Name, at: int,
      p: Peer)
    requires Stores(w, g, shelf, log) && Cached(w, shelf, log)
    requires SayPosition(w, me, g, shelf, key, position, username, at).Ok?
    ensures var (s, body) := SayPosition(w, me, g, shelf, key, position, username, at).value;
            var rows := AuthorStandingShelf(w, me, g, shelf, key, position, username, at).0.standings;
            if p != me then (p in rows <==> p in shelf.standings) && (p in rows ==> rows[p] == shelf.standings[p])
            else
              && (p in rows <==> p in log.Members())
              && (p in rows ==> rows[p] == StandingRow(body.seqNo, body.position, s))
  {
    var (s, body) := SayPosition(w, me, g, shelf, key, position, username, at).value;
    var spoken := Speak(me, shelf, s, body, position);
    RefreshedSpeech(w, g, shelf, spoken, log);
    var rows := Refresh(w, spoken, log).standings;
    assert shelf.members.Keys == log.Members().Keys;
    assert p in rows <==> p in spoken.standings && p in log.Members();
  }

  // ---- create and adopt ----

  /** A group is created exactly if its first entry can be signed, no group of that id is held, the name is
      within bounds, and the founder can state that it is in. */
  lemma GroupsAreCreatedExactly(
      w: World, key: Peer, name: Name, nonce: Bytes, username: Name, at: int, db: Db, entry: Entry, s: Standing,
      body: StandingBody)
    requires EncodingsDecode(w)
    ensures var made := EntryBody(Zero, 0, NoParent, at, Create(Base58(key), nonce, name));
            var g := OfGenesis(entry.body);
            PlanCreate(w, key, name, nonce, username, at, db)
            == Ok((Log(g, key, [Verified(entry, made, OfBody(entry.body))]), s, body)) <==>
            && SignedAs(w, key, made, entry) && 1 <= |name| <= 64 && At(db, g).row.None?
            && Some(body.username) == w.Normalised(username)
            && body == StandingBody(g, Base58(key), 1, In, body.username, at)
            && w.EncodedStanding(body) == Some(s.body) && w.Signature(key, s.body) == Some(s.signature)
            && SaidBy(w, g, key, s, body)
  {
    var made := EntryBody(Zero, 0, NoParent, at, Create(Base58(key), nonce, name));
    VerifyingIsSaying(w, OfGenesis(entry.body), s, body);
    var signed := SignEntry(w, key, made);
    if signed.Ok? {
      assert w.EntryBodyOf(signed.value) == Some(made);
      assert [signed.value][1..] == [];
    }
  }

  /** What the row of a group created says. */
  lemma CreatedRows(
      w: World, key: Peer, name: Name, nonce: Bytes, username: Name, at: int, db: Db)
    requires (forall g :: InStep(w, g, At(db, g))) && PlanCreate(w, key, name, nonce, username, at, db).Ok?
    ensures var (log, s, body) := PlanCreate(w, key, name, nonce, username, at, db).value;
            var row := CreateShelf(w, At(db, log.id), log, s, body, at).row;
            && row.Some? && row.value.state == Active && row.value.news == 0
            && row.value.firstSeen == row.value.lastSynced == at
  {
    CreateKeepsStep(w, key, name, nonce, username, at, db);
  }

  /** What is said of a log taken over whole, and what its row says. */
  lemma AdoptionsReport(
      w: World, me: Peer, shelf: Shelf, log: Log, es: seq<Entry>, standings: seq<Standing>, now: int)
    requires InStep(w, log.id, shelf) && shelf.row.None? && LoadLog(w, es) == Ok(log)
    ensures var (after, r) := AdoptShelf(w, me, shelf, log, es, standings, now);
            && r.Ok? && r.value.headSeq == r.value.accepted == |log.entries|
            && (r.value.weJoined <==> me in log.Members())
            && after.row.Some? && after.row.value.state == Pending && after.row.value.news == 0
            && after.row.value.firstSeen == after.row.value.lastSynced == now
  {
    AdoptKeepsStep(w, me, shelf, log, es, standings, now);
    InsertedStores(w, shelf, log, Pending, now);
    var inserted := AdoptInsert(w, shelf, log, now);
    assert Stores(w, log.id, inserted, log);
    PutsTouchTheRow(w, me, log.id, inserted, log, |log.entries|, [], standings, now);
  }

  // ---- who is called what ----

  /** Every member goes by the name in its own last statement, and by none before it has made one; only the
      admin is marked as such. */
  lemma NamesAreTheirOwn(w: World, g: GroupId, shelf: Shelf, log: Log, p: Peer)
    requires Stores(w, g, shelf, log) && Cached(w, shelf, log) && Genuine(w, g, shelf.standings)
    ensures p in shelf.members <==> p in log.Members()
    ensures p in shelf.members ==>
              && (shelf.members[p].isAdmin <==> p == log.admin)
              && (p !in shelf.standings ==> shelf.members[p].username == None)
              && (p in shelf.standings ==>
                    && w.StandingBodyOf(shelf.standings[p].standing).Some?
                    && shelf.members[p].username
                       == Some(w.StandingBodyOf(shelf.standings[p].standing).value.username))
  {
    OneAdminForever(w, log);
  }
}
