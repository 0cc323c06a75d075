/** The group store as an object: each operation works through its reads, its loops and its one
    transaction, and ends in the tables that `Tables` says
    (crates/ac-groups/src/store.rs). */
module Store {
  import opened Base
  import opened Wire
  import opened Standings
  import opened Memberships
  import opened Chains
  import opened ChainLaws
  import opened Tables
  import opened Runs

  lemma PutInTwoHalves(
      w: World, me: Peer, db: Db, g: GroupId, from: nat, es: seq<Entry>, standings: seq<Standing>, now: int)
    ensures var plan := PlanPut(w, g, At(db, g), from, es);
            var r := PutShelf(w, me, g, At(db, g), from, es, standings, now).1;
            var after := Do(w, me, db, DoPut(g, from, es, standings, now));
            if plan.Err? then r == Err(plan.error) && after == db
            else
              var done := CommitPut(w, me, g, At(db, g), plan.value, standings, now);
              if done.Err? then r == Err(done.error) && after == db
              else r == Ok(done.value.1) && after == db[g := done.value.0]
  {
  }

  lemma Overwritten(db: Db, g: GroupId, first: Shelf)
    ensures forall last {:trigger db[g := last]} :: db[g := first][g := last] == db[g := last]
    ensures forall last {:trigger db[g := first][g := last]} :: db[g := first][g := last] == db[g := last]
  {
  }

  lemma AdoptingIsDoing(w: World, me: Peer, db: Db, es: seq<Entry>, standings: seq<Standing>, now: int)
    requires LoadLog(w, es).Ok?
    ensures var log := LoadLog(w, es).value;
            var done := AdoptShelf(w, me, At(db, log.id), log, es, standings, now);
            if At(db, log.id).row.Some?
            then
              && Do(w, me, db, DoAdopt(es, standings, now)) == Do(w, me, db, DoPut(log.id, 0, es, standings, now))
              && done.1 == PutShelf(w, me, log.id, At(db, log.id), 0, es, standings, now).1
            else Do(w, me, db, DoAdopt(es, standings, now)) == db[log.id := done.0]
  {
  }

  lemma SayingIsDoing(w: World, me: Peer, db: Db, g: GroupId, position: Position, username: Name, at: int)
    ensures var done := AuthorStandingShelf(w, me, g, At(db, g), me, position, username, at);
            Do(w, me, db, DoSay(g, position, username, at))
            == if done.1.Err? && done.1.error.StandingFault? then db else db[g := done.0]
  {
  }

  class Groups {
    const w: World
    const me: Peer
    var db: Db

    constructor (w: World, me: Peer)
      ensures this.w == w && this.me == me && db == map[]
    {
      this.w, this.me, this.db := w, me, map[];
    }

    // ---- reads ----

    method ReadLog(g: GroupId) returns (r: Result<Chain, StoreError>)
      ensures r.Ok? ==> fresh(r.value)
      ensures (if r.Ok? then Ok(r.value.Value()) else Err(r.error)) == ReadChain(w, g, At(db, g))
    {
      var rows := At(db, g).entries;
      if rows == map[] {
        return Err(UnknownGroup(g));
      }
      var loaded := Chain.Load(w, Rows(rows));
      match loaded
      case Err(e) => return Err(ChainFault(e));
      case Ok(chain) => return Ok(chain);
    }

    method LoadStandings(rows: map<Peer, StandingRow>, into: StandingSet)
      requires into.held == map[]
      modifies into
      ensures into.held == ReadStandings(w, rows)
    {
      var todo := rows.Keys;
      ghost var all := ReadStandings(w, rows);
      while todo != {}
        invariant todo <= rows.Keys
        invariant forall p :: p in into.held <==> p in all && p !in todo
        invariant forall p :: p in into.held ==> into.held[p] == all[p]
      {
        var peer := Least(todo);
        var row := rows[peer];
        var decoded := w.StandingBodyOf(row.standing);
        if decoded.Some? {
          var _ := into.Insert(peer, row.standing, row.seqNo, row.position, decoded.value.username);
        }
        todo := todo - {peer};
      }
      assert into.held == all;
    }

    method Answer(g: GroupId, peer: Peer, from: nat) returns (r: Result<Option<Served>, StoreError>)
      ensures r == Serve(w, me, g, At(db, g), peer, from)
    {
      var shelf := At(db, g);
      if me !in shelf.members {
        return Ok(None);
      }
      var read := ReadLog(g);
      if read.Err? {
        return Err(read.error);
      }
      var chain := read.value;
      if peer in shelf.members {
        return Ok(Some(Served(Between(chain.Value(), from, |chain.entries|), StandingsOf(shelf.standings))));
      }
      var removedAt := chain.DepartureSeq(peer);
      match removedAt
      case None => return Ok(None);
      case Some(seqNo) => return Ok(Some(Served(Between(chain.Value(), from, seqNo + 1), [])));
    }

    // ---- writes ----

    method InsertEntries(m: map<nat, Entry>, from: nat, es: seq<Entry>) returns (rows: map<nat, Entry>)
      ensures rows == WriteEntries(m, from, es)
    {
      rows := m;
      for offset := 0 to |es|
        invariant WriteEntries(rows, from + offset, es[offset..]) == WriteEntries(m, from, es)
      {
        assert es[offset..][1..] == es[offset + 1..];
        if from + offset !in rows {
          rows := rows[from + offset := es[offset]];
        }
      }
    }

    /** Members, names and digest become those of this chain and these statements. */
    method Rebuild(tx: Shelf, chain: Chain, standings: StandingSet) returns (r: Shelf)
      ensures r == RebuildCaches(w, tx, chain.Value(), standings.held)
    {
      var members := chain.FoldMembers();
      members.NameFrom(standings.held);
      var digest := members.StandingsDigest(w, standings.held);
      r := tx.(
        members := members.byPeer,
        standings := map p | p in tx.standings && p in members.byPeer :: tx.standings[p],
        row := WithDigest(tx.row, digest));
    }

    method FindDifference(chain: Chain, from: nat, es: seq<Entry>, overlap: nat) returns (r: Option<nat>)
      requires overlap <= |es|
      ensures r == FirstDifference(chain.Value(), from, es, 0, overlap)
    {
      for i := 0 to overlap
        invariant FirstDifference(chain.Value(), from, es, i, overlap) ==
                  FirstDifference(chain.Value(), from, es, 0, overlap)
      {
        if chain.Value().HashAt(from + i) != Some(es[i].Hash()) {
          return Some(from + i);
        }
      }
      return None;
    }

    /** Take a batch of standings into the table of one open transaction. */
    method IngestStandings(
        g: GroupId, chain: Chain, members: Roster, held: StandingSet, rows: map<Peer, StandingRow>,
        standings: seq<Standing>)
      returns (after: map<Peer, StandingRow>, departed: seq<Peer>)
      modifies held
      ensures Intake(held.held, after, departed) ==
              TakeAll(w, g, chain.Value(), members, Intake(old(held.held), rows, []), standings)
    {
      after, departed := rows, [];
      ghost var goal := TakeAll(w, g, chain.Value(), members, Intake(held.held, rows, []), standings);
      for i := 0 to |standings|
        invariant TakeAll(w, g, chain.Value(), members, Intake(held.held, after, departed), standings[i..]) == goal
      {
        assert standings[i..][1..] == standings[i + 1..];
        var s := standings[i];
        var verified := VerifyStanding(w, s, g);
        if verified.Err? {
          continue;
        }
        var body := verified.value;
        var peer := Parse(body.peer);
        if peer.None? || !EverMentioned(chain.Value(), peer.value) {
          continue;
        }
        var won := held.Insert(peer.value, s, body.seqNo, body.position, body.username);
        if !won {
          continue;
        }
        after := after[peer.value := StandingRow(body.seqNo, body.position, s)];
        if body.position.Out? && peer.value in members {
          departed := departed + [peer.value];
        }
      }
    }

    /** The half of `put` before its transaction: read, compare, extend in memory. */
    method PreparePut(g: GroupId, from: nat, es: seq<Entry>)
      returns (r: Result<PutPlan, StoreError>, chain: Chain?)
      ensures r == PlanPut(w, g, At(db, g), from, es)
      ensures r.Ok? ==> chain != null && fresh(chain) && chain.Value() == r.value.log
    {
      chain := null;
      if At(db, g).row.None? {
        return Err(UnknownGroup(g)), null;
      }
      var read := ReadLog(g);
      if read.Err? {
        return Err(read.error), null;
      }
      chain := read.value;
      var members := chain.FoldMembers();
      var head := |chain.entries|;

      var overlap := Overlap(head, from, |es|);
      var difference := FindDifference(chain, from, es, overlap);
      if difference.Some? {
        return Err(Diverged(g, difference.value)), null;
      }
      if from > head {
        return Err(Gap(head, from)), null;
      }
      var unseen := es[overlap..];
      if unseen != [] {
        var extended := chain.Extend(w, unseen);
        if extended.Err? {
          return Err(ChainFault(extended.error)), null;
        }
      }
      r := Ok(PutPlan(members.byPeer, head, unseen, chain.Value()));
    }

    /** The transaction of `put`, worked out in full before anything is stored. */
    method TransactPut(
        g: GroupId, shelf: Shelf, plan: PutPlan, chain: Chain, standings: seq<Standing>, now: int)
      returns (r: Result<(Shelf, Applied), StoreError>)
      requires chain.Value() == plan.log
      ensures r == CommitPut(w, me, g, shelf, plan, standings, now)
    {
      var tx := shelf;
      var accepted := |plan.unseen|;
      if accepted > 0 {
        var rows := InsertEntries(tx.entries, plan.observed, plan.unseen);
        var moved := SetHead(tx.row, plan.observed, |chain.entries|, chain.Value().Head());
        if moved.1 == 0 {
          return Err(Raced(g));
        }
        tx := tx.(entries := rows, row := moved.0);
      }
      var members := chain.FoldMembers();
      var after := members.byPeer;
      var held := new StandingSet();
      LoadStandings(tx.standings, held);
      var rows, departed := IngestStandings(g, chain, after, held, tx.standings, standings);
      tx := Rebuild(tx.(standings := rows), chain, held);
      tx := tx.(row := Touched(tx.row, chain.Value().Name(), now));
      return Ok((tx, Applied(
        accepted, |chain.entries|, Difference(after, plan.before), Difference(plan.before, after),
        me !in plan.before && me in after, me in plan.before && me !in after, departed)));
    }

    /** Both halves at once: nothing changes on an error, and only this group's rows otherwise. */
    method Put(g: GroupId, from: nat, es: seq<Entry>, standings: seq<Standing>, now: int)
      returns (r: Result<Applied, StoreError>)
      modifies this
      ensures r == PutShelf(w, me, g, old(At(db, g)), from, es, standings, now).1
      ensures db == Do(w, me, old(db), DoPut(g, from, es, standings, now))
    {
      PutInTwoHalves(w, me, db, g, from, es, standings, now);
      var plan, chain := PreparePut(g, from, es);
      if plan.Err? {
        return Err(plan.error);
      }
      var done := TransactPut(g, At(db, g), plan.value, chain, standings, now);
      if done.Err? {
        return Err(done.error);
      }
      db := db[g := done.value.0];
      return Ok(done.value.1);
    }

    method PrepareAuthor(key: Peer, g: GroupId, op: Op, at: int)
      returns (r: Result<AuthorPlan, StoreError>, chain: Chain?)
      ensures r == PlanAuthor(w, g, At(db, g), key, op, at)
      ensures r.Ok? ==> chain != null && fresh(chain) && chain.Value() == r.value.log
    {
      chain := null;
      if At(db, g).row.None? {
        return Err(UnknownGroup(g)), null;
      }
      var read := ReadLog(g);
      if read.Err? {
        return Err(read.error), null;
      }
      chain := read.value;
      var head := |chain.entries|;
      var made := chain.Author(w, key, op, at);
      if made.Err? {
        return Err(ChainFault(made.error)), null;
      }
      r := Ok(AuthorPlan(head, made.value, chain.Value()));
    }

    method TransactAuthor(g: GroupId, shelf: Shelf, plan: AuthorPlan, chain: Chain, at: int)
      returns (r: Result<Shelf, StoreError>)
      requires chain.Value() == plan.log
      ensures r == CommitAuthor(w, g, shelf, plan, at)
    {
      var rows := InsertEntries(shelf.entries, plan.observed, [plan.entry]);
      var moved := SetHead(shelf.row, plan.observed, |chain.entries|, chain.Value().Head());
      if moved.1 == 0 {
        return Err(Raced(g));
      }
      var tx := RefreshCaches(shelf.(entries := rows, row := moved.0), chain);
      return Ok(tx.(row := WithNews(Touched(tx.row, chain.Value().Name(), at))));
    }

    /** One entry more, signed by `key`, which must be the admin's; nothing else changes. */
    method Author(key: Peer, g: GroupId, op: Op, at: int) returns (r: Result<Entry, StoreError>)
      modifies this
      ensures var done := AuthorShelf(w, g, old(At(db, g)), key, op, at);
              r == done.1 && db == if r.Ok? then old(db)[g := done.0] else old(db)
      ensures key == me ==> db == Do(w, me, old(db), DoAuthor(g, op, at))
    {
      var plan, chain := PrepareAuthor(key, g, op, at);
      if plan.Err? {
        return Err(plan.error);
      }
      var done := TransactAuthor(g, At(db, g), plan.value, chain, at);
      if done.Err? {
        return Err(done.error);
      }
      db := db[g := done.value];
      return Ok(plan.value.entry);
    }

    /** The same with the statements read back from their rows. */
    method RefreshCaches(tx: Shelf, chain: Chain) returns (r: Shelf)
      ensures r == RebuildCaches(w, tx, chain.Value(), ReadStandings(w, tx.standings))
    {
      var held := new StandingSet();
      LoadStandings(tx.standings, held);
      r := Rebuild(tx, chain, held);
    }

    method RefreshDigest(g: GroupId) returns (failed: Option<StoreError>)
      modifies this
      ensures match ReadChain(w, g, old(At(db, g)))
              case Err(e) => failed == Some(e) && db == old(db)
              case Ok(log) => failed == None && db == old(db)[g := Refresh(w, old(At(db, g)), log)]
    {
      var read := ReadLog(g);
      if read.Err? {
        return Some(read.error);
      }
      var tx := RefreshCaches(At(db, g), read.value);
      db := db[g := tx];
      return None;
    }

    /** Two commits: the statement with the local state that goes with it, and then the caches. The first
        stands even when the second fails. */
    method AuthorPosition(key: Peer, g: GroupId, position: Position, username: Name, at: int)
      returns (r: Result<Standing, StoreError>)
      modifies this
      ensures var done := AuthorStandingShelf(w, me, g, old(At(db, g)), key, position, username, at);
              && r == done.1
              && db == if r.Err? && r.error.StandingFault? then old(db) else old(db)[g := done.0]
    {
      var shelf := At(db, g);
      var said := SayPosition(w, me, g, shelf, key, position, username, at);
      if said.Err? {
        return Err(StandingFault(said.error));
      }
      var spoken := Speak(me, shelf, said.value.0, said.value.1, position);
      Overwritten(db, g, spoken);
      db := db[g := spoken];
      var failed := RefreshDigest(g);
      return if failed.Some? then Err(failed.value) else Ok(said.value.0);
    }

    /** Create a group with the key's holder as its admin. */
    method Create(key: Peer, name: Name, nonce: Bytes, username: Name, at: int)
      returns (r: Result<GroupId, StoreError>)
      modifies this
      ensures match PlanCreate(w, key, name, nonce, username, at, old(db))
              case Err(e) => r == Err(e) && db == old(db)
              case Ok((log, s, body)) =>
                && r == Ok(log.id)
                && db == old(db)[log.id := CreateShelf(w, old(At(db, log.id)), log, s, body, at)]
      ensures key == me ==> db == Do(w, me, old(db), DoCreate(name, nonce, username, at))
    {
      var plan := PlanCreate(w, key, name, nonce, username, at, db);
      if plan.Err? {
        return Err(plan.error);
      }
      var (log, s, body) := plan.value;
      var chain := new Chain(log);
      var held := new StandingSet();
      var _ := held.Insert(log.admin, s, body.seqNo, body.position, body.username);
      assert held.held == map[log.admin := Held(s, body.seqNo, body.position, body.username)];

      var tx := At(db, log.id);
      var rows := InsertEntries(tx.entries, 0, log.Raw());
      tx := tx.(
        row := SetHead(Some(NewRow(log, Active, at)), 0, |log.entries|, log.Head()).0,
        entries := rows);
      tx := tx.(standings := tx.standings[log.admin := StandingRow(body.seqNo, body.position, s)]);
      tx := Rebuild(tx, chain, held);
      db := db[log.id := tx];
      return Ok(log.id);
    }

    /** The transaction of `adopt` for a group there is no row of. */
    method InsertGroup(shelf: Shelf, chain: Chain, now: int) returns (tx: Shelf)
      ensures tx == AdoptInsert(w, shelf, chain.Value(), now)
    {
      var rows := InsertEntries(shelf.entries, 0, chain.Value().Raw());
      tx := shelf.(
        row := SetHead(Some(NewRow(chain.Value(), Pending, now)), 0, |chain.entries|, chain.Value().Head()).0,
        entries := rows);
      var nothing := new StandingSet();
      tx := Rebuild(tx, chain, nothing);
    }

    /** An offered log that loads becomes a pending group if its id is new here, and goes through `Put`
        otherwise. */
    method Adopt(es: seq<Entry>, standings: seq<Standing>, now: int)
      returns (r: Result<Applied, StoreError>)
      modifies this
      ensures match LoadLog(w, es)
              case Err(e) => r == Err(ChainFault(e))
              case Ok(log) => r == AdoptShelf(w, me, old(At(db, log.id)), log, es, standings, now).1
      ensures db == Do(w, me, old(db), DoAdopt(es, standings, now))
    {
      var loaded := Chain.Load(w, es);
      if loaded.Err? {
        return Err(ChainFault(loaded.error));
      }
      var chain := loaded.value;
      AdoptingIsDoing(w, me, db, es, standings, now);
      if At(db, chain.id).row.Some? {
        r := Put(chain.id, 0, es, standings, now);
      } else {
        r := AdoptNew(chain, es, standings, now);
      }
    }

    method AdoptNew(chain: Chain, ghost es: seq<Entry>, standings: seq<Standing>, now: int)
      returns (r: Result<Applied, StoreError>)
      requires At(db, chain.id).row.None?
      modifies this
      ensures var log := chain.Value();
              var done := AdoptShelf(w, me, old(At(db, log.id)), log, es, standings, now);
              r == done.1 && db == old(db)[log.id := done.0]
    {
      var g := chain.id;
      var tx := InsertGroup(At(db, g), chain, now);
      Overwritten(db, g, tx);
      db := db[g := tx];
      r := Put(g, |chain.entries|, [], standings, now);
      ghost var put := PutShelf(w, me, g, tx, |chain.entries|, [], standings, now);
      assert r == put.1 && db == old(db)[g := put.0];
      if r.Ok? {
        r := Ok(r.value.(
          headSeq := |chain.entries|, accepted := |chain.entries|, weJoined := me in chain.Value().Members()));
      }
    }

    /** The group's rows go; no other group's do. */
    method Forget(g: GroupId)
      modifies this
      ensures db == old(db) - {g} == Do(w, me, old(db), DoForget(g))
    {
      db := db - {g};
    }
  }
}
