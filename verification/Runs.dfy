/** Whole runs of the store: one operation after another, and two connections to the same tables
    whose reads and transactions interleave. */
module Runs {
  import opened Base
  import opened Wire
  import opened Standings
  import opened Memberships
  import opened Chains
  import opened ChainLaws
  import opened Tables
  import opened StoreLaws

  // ---- one operation after another ----

  datatype Call =
    | DoCreate(name: Name, nonce: Bytes, username: Name, at: int)
    | DoPut(g: GroupId, from: nat, es: seq<Entry>, standings: seq<Standing>, now: int)
    | DoAuthor(g: GroupId, op: Op, at: int)
    | DoSay(g: GroupId, position: Position, username: Name, at: int)
    | DoAdopt(es: seq<Entry>, standings: seq<Standing>, now: int)
    | DoForget(g: GroupId)

  /** The tables after a call by the node `me`, whose key is its own. */
  function Do(w: World, me: Peer, db: Db, call: Call): Db {
    match call
    case DoCreate(name, nonce, username, at) =>
      (match PlanCreate(w, me, name, nonce, username, at, db)
       case Err(_) => db
       case Ok((log, s, body)) => db[log.id := CreateShelf(w, At(db, log.id), log, s, body, at)])
    case DoPut(g, from, es, standings, now) =>
      var (after, r) := PutShelf(w, me, g, At(db, g), from, es, standings, now);
      if r.Ok? then db[g := after] else db
    case DoAuthor(g, op, at) =>
      var (after, r) := AuthorShelf(w, g, At(db, g), me, op, at);
      if r.Ok? then db[g := after] else db
    case DoSay(g, position, username, at) =>
      var (after, r) := AuthorStandingShelf(w, me, g, At(db, g), me, position, username, at);
      if r.Err? && r.error.StandingFault? then db else db[g := after]
    case DoAdopt(es, standings, now) =>
      (match LoadLog(w, es)
       case Err(_) => db
       case Ok(log) =>
         var (after, r) := AdoptShelf(w, me, At(db, log.id), log, es, standings, now);
         if r.Ok? || At(db, log.id).row.None? then db[log.id := after] else db)
    case DoForget(g) => db - {g}
  }

  function DoAll(w: World, me: Peer, db: Db, calls: seq<Call>): Db {
    if calls == [] then db
    else Do(w, me, DoAll(w, me, db, calls[..|calls| - 1]), calls[|calls| - 1])
  }

  /** Every row of the standings table is its peer's own word about this group. */
  ghost predicate Genuine(w: World, g: GroupId, rows: map<Peer, StandingRow>) {
    forall p :: p in rows ==>
      match w.StandingBodyOf(rows[p].standing)
      case None => false
      case Some(body) =>
        && SaidBy(w, g, p, rows[p].standing, body)
        && body.seqNo == rows[p].seqNo && body.position == rows[p].position
  }

  ghost predicate Sound(w: World, db: Db) {
    forall g :: SoundShelf(w, g, At(db, g))
  }

  lemma {:induction false} TakeAllIsGenuine(
      w: World, g: GroupId, log: Log, members: Roster, so: Intake, standings: seq<Standing>)
    requires Genuine(w, g, so.rows)
    ensures Genuine(w, g, TakeAll(w, g, log, members, so, standings).rows)
    decreases |standings|
  {
    if standings != [] {
      TakeAllIsGenuine(w, g, log, members, TakeIn(w, g, log, members, so, standings[0]), standings[1..]);
    }
  }

  lemma PutIsGenuine(
      w: World, me: Peer, g: GroupId, shelf: Shelf, from: nat, es: seq<Entry>, standings: seq<Standing>, now: int)
    requires Genuine(w, g, shelf.standings)
    ensures Genuine(w, g, PutShelf(w, me, g, shelf, from, es, standings, now).0.standings)
  {
    var plan := PlanPut(w, g, shelf, from, es);
    if plan.Ok? {
      var log := plan.value.log;
      var so := Intake(ReadStandings(w, shelf.standings), shelf.standings, []);
      TakeAllIsGenuine(w, g, log, log.Members(), so, standings);
    }
  }

  lemma AuthoredSpeaksForItself(
      w: World, key: Peer, group: GroupId, seqNo: U64, position: Position, username: Name, at: int)
    requires EncodingsDecode(w)
    ensures var s := AuthorStanding(w, key, group, seqNo, position, username, at);
            s.Ok? && VerifyStanding(w, s.value, group).Ok? ==>
              var body := VerifyStanding(w, s.value, group).value;
              SaidBy(w, group, key, s.value, body) && body.seqNo == seqNo && body.position == position
  {
  }

  lemma SayIsGenuine(
      w: World, me: Peer, g: GroupId, shelf: Shelf, position: Position, username: Name, at: int)
    requires EncodingsDecode(w) && Genuine(w, g, shelf.standings)
    ensures Genuine(w, g, AuthorStandingShelf(w, me, g, shelf, me, position, username, at).0.standings)
  {
    AuthoredSpeaksForItself(w, me, g, NextSeq(MyStandingSeq(shelf, me)), position, username, at);
  }

  lemma CreateIsGenuine(
      w: World, me: Peer, name: Name, nonce: Bytes, username: Name, at: int, db: Db)
    requires EncodingsDecode(w)
    ensures match PlanCreate(w, me, name, nonce, username, at, db)
            case Err(_) => true
            case Ok((log, s, body)) =>
              log.admin == me && Genuine(w, log.id, map[log.admin := StandingRow(body.seqNo, body.position, s)])
  {
    var plan := PlanCreate(w, me, name, nonce, username, at, db);
    if plan.Ok? {
      var log := plan.value.0;
      var made := EntryBody(Zero, 0, NoParent, at, Create(Base58(me), nonce, name));
      var genesis := SignEntry(w, me, made).value;
      assert w.EntryBodyOf(genesis) == Some(made);
      LoadIsValidity(w, [genesis], log);
      assert log.Raw()[0] == genesis;
      AuthoredSpeaksForItself(w, me, log.id, NextSeq(None), In, username, at);
    }
  }

  ghost predicate SoundShelf(w: World, g: GroupId, shelf: Shelf) {
    InStep(w, g, shelf) && Genuine(w, g, shelf.standings)
  }

  lemma StoringKeepsSound(w: World, db: Db, g: GroupId, shelf: Shelf)
    requires Sound(w, db) && SoundShelf(w, g, shelf)
    ensures Sound(w, db[g := shelf])
  {
    assert forall h :: SoundShelf(w, h, At(db, h));
    assert forall h {:trigger At(db[g := shelf], h)} :: h != g ==> At(db[g := shelf], h) == At(db, h);
  }

  lemma CreatingKeepsSound(w: World, me: Peer, db: Db, call: Call)
    requires EncodingsDecode(w) && Sound(w, db) && call.DoCreate?
    ensures Sound(w, Do(w, me, db, call))
  {
    CreateKeepsStep(w, me, call.name, call.nonce, call.username, call.at, db);
    CreateIsGenuine(w, me, call.name, call.nonce, call.username, call.at, db);
    var plan := PlanCreate(w, me, call.name, call.nonce, call.username, call.at, db);
    if plan.Ok? {
      var (log, s, body) := plan.value;
      var after := CreateShelf(w, At(db, log.id), log, s, body, call.at);
      assert InStep(w, log.id, after);
      StoringKeepsSound(w, db, log.id, after);
    }
  }

  lemma AdoptingKeepsSound(w: World, me: Peer, db: Db, call: Call)
    requires Sound(w, db) && call.DoAdopt?
    ensures Sound(w, Do(w, me, db, call))
  {
    var loaded := LoadLog(w, call.es);
    if loaded.Ok? {
      var log := loaded.value;
      var shelf := At(db, log.id);
      assert SoundShelf(w, log.id, shelf);
      AdoptKeepsStep(w, me, shelf, log, call.es, call.standings, call.now);
      if shelf.row.Some? {
        PutIsGenuine(w, me, log.id, shelf, 0, call.es, call.standings, call.now);
      } else {
        var inserted := AdoptInsert(w, shelf, log, call.now);
        assert Genuine(w, log.id, inserted.standings);
        PutIsGenuine(w, me, log.id, inserted, |log.entries|, [], call.standings, call.now);
      }
      StoringKeepsSound(w, db, log.id, AdoptShelf(w, me, shelf, log, call.es, call.standings, call.now).0);
    }
  }

  lemma PuttingKeepsSound(w: World, me: Peer, db: Db, call: Call)
    requires Sound(w, db) && call.DoPut?
    ensures Sound(w, Do(w, me, db, call))
  {
    var shelf := At(db, call.g);
    assert SoundShelf(w, call.g, shelf);
    PutKeepsStep(w, me, call.g, shelf, call.from, call.es, call.standings, call.now);
    PutIsGenuine(w, me, call.g, shelf, call.from, call.es, call.standings, call.now);
    StoringKeepsSound(w, db, call.g, PutShelf(w, me, call.g, shelf, call.from, call.es, call.standings, call.now).0);
  }

  lemma AuthorIsGenuine(w: World, g: GroupId, shelf: Shelf, key: Peer, op: Op, at: int)
    requires Genuine(w, g, shelf.standings)
    ensures Genuine(w, g, AuthorShelf(w, g, shelf, key, op, at).0.standings)
  {
    var plan := PlanAuthor(w, g, shelf, key, op, at);
    if plan.Ok? && CommitAuthor(w, g, shelf, plan.value, at).Ok? {
      var rows := CommitAuthor(w, g, shelf, plan.value, at).value.standings;
      assert forall p :: p in rows ==> p in shelf.standings && rows[p] == shelf.standings[p];
    }
  }

  lemma AuthoringKeepsSound(w: World, me: Peer, db: Db, call: Call)
    requires Sound(w, db) && call.DoAuthor?
    ensures Sound(w, Do(w, me, db, call))
  {
    var shelf := At(db, call.g);
    assert SoundShelf(w, call.g, shelf);
    var (after, r) := AuthorShelf(w, call.g, shelf, me, call.op, call.at);
    assert SoundShelf(w, call.g, after) by {
      AuthorKeepsStep(w, call.g, shelf, me, call.op, call.at);
      AuthorIsGenuine(w, call.g, shelf, me, call.op, call.at);
    }
    StoringKeepsSound(w, db, call.g, after);
  }

  lemma SayingKeepsSound(w: World, me: Peer, db: Db, call: Call)
    requires EncodingsDecode(w) && Sound(w, db) && call.DoSay?
    ensures Sound(w, Do(w, me, db, call))
  {
    var shelf := At(db, call.g);
    assert SoundShelf(w, call.g, shelf);
    AuthorStandingKeepsStep(w, me, call.g, shelf, me, call.position, call.username, call.at);
    SayIsGenuine(w, me, call.g, shelf, call.position, call.username, call.at);
    StoringKeepsSound(
      w, db, call.g, AuthorStandingShelf(w, me, call.g, shelf, me, call.position, call.username, call.at).0);
  }

  lemma DoKeepsSound(w: World, me: Peer, db: Db, call: Call)
    requires EncodingsDecode(w) && Sound(w, db)
    ensures Sound(w, Do(w, me, db, call))
  {
    if call.DoCreate? {
      CreatingKeepsSound(w, me, db, call);
    } else if call.DoAdopt? {
      AdoptingKeepsSound(w, me, db, call);
    } else if call.DoPut? {
      PuttingKeepsSound(w, me, db, call);
    } else if call.DoAuthor? {
      AuthoringKeepsSound(w, me, db, call);
    } else if call.DoSay? {
      SayingKeepsSound(w, me, db, call);
    } else {
      ForgettingKeepsSound(w, db, call.g);
    }
  }

  lemma ForgettingKeepsSound(w: World, db: Db, g: GroupId)
    requires Sound(w, db)
    ensures Sound(w, db - {g})
  {
    assert forall h :: SoundShelf(w, h, At(db, h));
    assert forall h {:trigger At(db - {g}, h)} :: h != g ==> At(db - {g}, h) == At(db, h);
  }

  /** From an empty database, after any run of operations: every group's entries are one valid
      log with its head where the row says, every derived table is the one recomputed from it, and
      every standing is its peer's own. */
  lemma {:induction false} EveryRunIsSound(w: World, me: Peer, calls: seq<Call>)
    requires EncodingsDecode(w)
    ensures Sound(w, DoAll(w, me, map[], calls))
  {
    if calls != [] {
      EveryRunIsSound(w, me, calls[..|calls| - 1]);
      DoKeepsSound(w, me, DoAll(w, me, map[], calls[..|calls| - 1]), calls[|calls| - 1]);
    }
  }

  // ---- reads and transactions interleaved ----

  /** A transaction some connection has read for and not yet opened. */
  datatype Pending =
    | PutPending(put: PutPlan, standings: seq<Standing>, now: int)
    | AuthorPending(author: AuthorPlan, at: int)
    | RefreshPending(log: Log)
    | InsertPending(offered: Log, now: int)
    | CreatePending(made: Log, s: Standing, body: StandingBody, createdAt: int)

  /** One group's tables and every transaction in preparation, by whichever connection. */
  datatype System = System(shelf: Shelf, pending: seq<Pending>)

  datatype Step =
    | ReadForPut(from: nat, es: seq<Entry>, standings: seq<Standing>, now: int)
    | ReadForAuthor(key: Peer, op: Op, at: int)
    | SpeakNow(key: Peer, position: Position, username: Name, at: int)
    | ReadForRefresh
    | ReadForAdopt(es: seq<Entry>, now: int)
    | ReadForCreate(key: Peer, name: Name, nonce: Bytes, username: Name, at: int)
    | CommitOne(which: nat)

  function Prepare(sys: System, p: Pending): System {
    sys.(pending := sys.pending + [p])
  }

  /** What the transaction leaves. One that fails leaves the tables as they were: a put or an author
      whose head moved, or the insertion or creation of a group another connection has inserted. */
  function Run(w: World, me: Peer, g: GroupId, shelf: Shelf, p: Pending): Shelf {
    match p
    case PutPending(plan, standings, now) =>
      (match CommitPut(w, me, g, shelf, plan, standings, now)
       case Err(_) => shelf
       case Ok(done) => done.0)
    case AuthorPending(plan, at) =>
      (match CommitAuthor(w, g, shelf, plan, at)
       case Err(_) => shelf
       case Ok(next) => next)
    case RefreshPending(log) => Refresh(w, shelf, log)
    case InsertPending(log, now) => if shelf.row.Some? then shelf else AdoptInsert(w, shelf, log, now)
    case CreatePending(log, s, body, at) => if shelf.row.Some? then shelf else CreateShelf(w, shelf, log, s, body, at)
  }

  function Next(w: World, me: Peer, g: GroupId, sys: System, step: Step): System {
    match step
    case ReadForPut(from, es, standings, now) =>
      (match PlanPut(w, g, sys.shelf, from, es)
       case Err(_) => sys
       case Ok(plan) => Prepare(sys, PutPending(plan, standings, now)))
    case ReadForAuthor(key, op, at) =>
      (match PlanAuthor(w, g, sys.shelf, key, op, at)
       case Err(_) => sys
       case Ok(plan) => Prepare(sys, AuthorPending(plan, at)))
    case SpeakNow(key, position, username, at) =>
      (match SayPosition(w, me, g, sys.shelf, key, position, username, at)
       case Err(_) => sys
       case Ok(said) => sys.(shelf := Speak(me, sys.shelf, said.0, said.1, position)))
    case ReadForRefresh =>
      (match ReadChain(w, g, sys.shelf)
       case Err(_) => sys
       case Ok(log) => Prepare(sys, RefreshPending(log)))
    case ReadForAdopt(es, now) =>
      (match LoadLog(w, es)
       case Err(_) => sys
       case Ok(log) =>
         if log.id != g || sys.shelf.row.Some? then sys else Prepare(sys, InsertPending(log, now)))
    case ReadForCreate(key, name, nonce, username, at) =>
      (match PlanCreate(w, key, name, nonce, username, at, map[g := sys.shelf])
       case Err(_) => sys
       case Ok((log, s, body)) => if log.id != g then sys else Prepare(sys, CreatePending(log, s, body, at)))
    case CommitOne(i) =>
      if i >= |sys.pending| then sys
      else System(Run(w, me, g, sys.shelf, sys.pending[i]), sys.pending[..i] + sys.pending[i + 1..])
  }

  function After(w: World, me: Peer, g: GroupId, sys: System, steps: seq<Step>): System {
    if steps == [] then sys
    else Next(w, me, g, After(w, me, g, sys, steps[..|steps| - 1]), steps[|steps| - 1])
  }

  /** The transaction was prepared from a log that is still the start of the stored one. */
  ghost predicate Current(w: World, g: GroupId, shelf: Shelf, p: Pending) {
    match p
    case PutPending(plan, _, _) =>
      exists log, base :: Stores(w, g, shelf, log) && PlannedFrom(w, g, plan, base) && Extends(log, base)
    case AuthorPending(plan, _) =>
      exists log, base :: Stores(w, g, shelf, log) && AuthoredFrom(w, g, plan, base) && Extends(log, base)
    case RefreshPending(_) => exists log :: Stores(w, g, shelf, log)
    case InsertPending(log, _) => ValidLog(w, log) && log.id == g
    case CreatePending(log, _, _, _) => ValidLog(w, log) && log.id == g
  }

  ghost predicate Empty(shelf: Shelf) {
    shelf.row.None? && shelf.entries == map[]
  }

  ghost predicate Consistent(w: World, g: GroupId, sys: System) {
    && LogStored(w, g, sys.shelf)
    && (forall i :: 0 <= i < |sys.pending| ==> Current(w, g, sys.shelf, sys.pending[i]))
  }

  /** The stored log of `after` is that of `before` with entries added. */
  ghost predicate Grows(w: World, g: GroupId, before: Shelf, after: Shelf) {
    forall log :: Stores(w, g, before, log) ==> exists next :: Stores(w, g, after, next) && Extends(next, log)
  }

  lemma StoredLogIsUnique(w: World, g: GroupId, shelf: Shelf, a: Log, b: Log)
    requires Stores(w, g, shelf, a) && Stores(w, g, shelf, b)
    ensures a == b
  {
    StoredLogIsRead(w, g, shelf, a);
    StoredLogIsRead(w, g, shelf, b);
  }

  lemma GrowingKeepsCurrent(w: World, g: GroupId, before: Shelf, after: Shelf, p: Pending)
    requires Current(w, g, before, p) && Grows(w, g, before, after)
    ensures Current(w, g, after, p)
  {
    match p
    case PutPending(plan, _, _) =>
      var log, base :| Stores(w, g, before, log) && PlannedFrom(w, g, plan, base) && Extends(log, base);
      var next :| Stores(w, g, after, next) && Extends(next, log);
      assert Extends(next, base);
    case AuthorPending(plan, _) =>
      var log, base :| Stores(w, g, before, log) && AuthoredFrom(w, g, plan, base) && Extends(log, base);
      var next :| Stores(w, g, after, next) && Extends(next, log);
      assert Extends(next, base);
    case RefreshPending(_) =>
    case InsertPending(_, _) =>
    case CreatePending(_, _, _, _) =>
  }

  ghost predicate LogStored(w: World, g: GroupId, shelf: Shelf) {
    Empty(shelf) || exists log :: Stores(w, g, shelf, log)
  }

  /** A put committed at any later time adds its entries to exactly the log it was prepared from, or
      finds the head moved and changes nothing. */
  lemma PutExtendsWhatItRead(
      w: World, me: Peer, g: GroupId, shelf: Shelf, plan: PutPlan, standings: seq<Standing>, now: int)
    requires Current(w, g, shelf, PutPending(plan, standings, now)) && plan.unseen != []
    ensures var after := Run(w, me, g, shelf, PutPending(plan, standings, now));
            && shelf.row.Some?
            && (if shelf.row.value.headSeq == plan.observed
                then (exists base ::
                        Stores(w, g, shelf, base) && PlannedFrom(w, g, plan, base) && Stores(w, g, after, plan.log))
                else after == shelf)
  {
    var log, base :| Stores(w, g, shelf, log) && PlannedFrom(w, g, plan, base) && Extends(log, base);
    CommitPutMovesHead(w, me, g, shelf, log, plan, base, standings, now);
  }

  lemma PutGrows(
      w: World, me: Peer, g: GroupId, shelf: Shelf, plan: PutPlan, standings: seq<Standing>, now: int)
    requires Current(w, g, shelf, PutPending(plan, standings, now))
    ensures var after := Run(w, me, g, shelf, PutPending(plan, standings, now));
            LogStored(w, g, after) && Grows(w, g, shelf, after)
  {
    var log, base :| Stores(w, g, shelf, log) && PlannedFrom(w, g, plan, base) && Extends(log, base);
    CommitPutMovesHead(w, me, g, shelf, log, plan, base, standings, now);
    var r := CommitPut(w, me, g, shelf, plan, standings, now);
    GrewTo(w, g, shelf, if r.Err? then shelf else r.value.0, log,
           if r.Ok? && plan.unseen != [] then plan.log else log);
  }

  /** The same of an authored entry. */
  lemma AuthorExtendsWhatItRead(w: World, me: Peer, g: GroupId, shelf: Shelf, plan: AuthorPlan, at: int)
    requires Current(w, g, shelf, AuthorPending(plan, at))
    ensures var after := Run(w, me, g, shelf, AuthorPending(plan, at));
            && shelf.row.Some?
            && (if shelf.row.value.headSeq == plan.observed
                then (exists base ::
                        Stores(w, g, shelf, base) && AuthoredFrom(w, g, plan, base) && Stores(w, g, after, plan.log))
                else after == shelf)
  {
    var log, base :| Stores(w, g, shelf, log) && AuthoredFrom(w, g, plan, base) && Extends(log, base);
    CommitAuthorMovesHead(w, g, shelf, log, plan, base, at);
  }

  lemma AuthorGrows(w: World, me: Peer, g: GroupId, shelf: Shelf, plan: AuthorPlan, at: int)
    requires Current(w, g, shelf, AuthorPending(plan, at))
    ensures var after := Run(w, me, g, shelf, AuthorPending(plan, at));
            LogStored(w, g, after) && Grows(w, g, shelf, after)
  {
    var log, base :| Stores(w, g, shelf, log) && AuthoredFrom(w, g, plan, base) && Extends(log, base);
    CommitAuthorMovesHead(w, g, shelf, log, plan, base, at);
    var r := CommitAuthor(w, g, shelf, plan, at);
    GrewTo(w, g, shelf, if r.Err? then shelf else r.value, log, if r.Ok? then plan.log else log);
  }

  lemma GrewTo(w: World, g: GroupId, before: Shelf, after: Shelf, log: Log, next: Log)
    requires Stores(w, g, before, log) && Stores(w, g, after, next) && Extends(next, log)
    ensures LogStored(w, g, after) && Grows(w, g, before, after)
  {
    OnlyLogGrows(w, g, before, after, log);
  }

  lemma RunGrows(w: World, me: Peer, g: GroupId, shelf: Shelf, p: Pending)
    requires LogStored(w, g, shelf) && Current(w, g, shelf, p)
    ensures LogStored(w, g, Run(w, me, g, shelf, p)) && Grows(w, g, shelf, Run(w, me, g, shelf, p))
  {
    if p.PutPending? {
      PutGrows(w, me, g, shelf, p.put, p.standings, p.now);
    } else if p.AuthorPending? {
      AuthorGrows(w, me, g, shelf, p.author, p.at);
    } else if p.RefreshPending? {
      RefreshGrows(w, me, g, shelf, p);
    } else {
      NewGroupGrows(w, me, g, shelf, p);
    }
  }

  lemma RefreshGrows(w: World, me: Peer, g: GroupId, shelf: Shelf, p: Pending)
    requires p.RefreshPending? && LogStored(w, g, shelf) && Current(w, g, shelf, p)
    ensures LogStored(w, g, Run(w, me, g, shelf, p)) && Grows(w, g, shelf, Run(w, me, g, shelf, p))
  {
    var after := Run(w, me, g, shelf, p);
    var log :| Stores(w, g, shelf, log);
    assert Stores(w, g, after, log) && Extends(log, log);
    OnlyLogGrows(w, g, shelf, after, log);
  }

  lemma NewGroupGrows(w: World, me: Peer, g: GroupId, shelf: Shelf, p: Pending)
    requires p.InsertPending? || p.CreatePending?
    requires LogStored(w, g, shelf) && Current(w, g, shelf, p)
    ensures LogStored(w, g, Run(w, me, g, shelf, p)) && Grows(w, g, shelf, Run(w, me, g, shelf, p))
  {
    if shelf.row.Some? {
      assert Run(w, me, g, shelf, p) == shelf;
      StandingStill(w, g, shelf);
    } else if p.InsertPending? {
      InsertedRows(w, shelf, p.offered, Pending, p.now);
      assert Stores(w, g, Run(w, me, g, shelf, p), p.offered);
    } else {
      InsertedRows(w, shelf, p.made, Active, p.createdAt);
      assert Stores(w, g, Run(w, me, g, shelf, p), p.made);
    }
  }

  lemma StandingStill(w: World, g: GroupId, shelf: Shelf)
    ensures Grows(w, g, shelf, shelf)
  {
    forall log | Stores(w, g, shelf, log) ensures exists next :: Stores(w, g, shelf, next) && Extends(next, log) {
      assert Extends(log, log);
    }
  }

  lemma InsertedRows(w: World, shelf: Shelf, log: Log, state: State, now: int)
    requires Empty(shelf) && ValidLog(w, log)
    ensures Stores(w, log.id, Inserted(shelf, log, state, now), log)
  {
    InsertedStores(w, shelf.(members := map[]), log, state, now);
    assert Inserted(shelf, log, state, now).row == Inserted(shelf.(members := map[]), log, state, now).row;
  }

  lemma OnlyLogGrows(w: World, g: GroupId, before: Shelf, after: Shelf, log: Log)
    requires Stores(w, g, before, log)
    requires exists next :: Stores(w, g, after, next) && Extends(next, log)
    ensures Grows(w, g, before, after)
  {
    forall other | Stores(w, g, before, other) ensures other == log {
      StoredLogIsUnique(w, g, before, other, log);
    }
  }

  lemma PreparingKeepsConsistent(w: World, g: GroupId, sys: System, p: Pending)
    requires Consistent(w, g, sys) && Current(w, g, sys.shelf, p)
    ensures Consistent(w, g, Prepare(sys, p))
  {
  }

  lemma ReadIsCurrent(w: World, g: GroupId, sys: System, step: Step)
    requires Consistent(w, g, sys)
    requires step.ReadForPut? || step.ReadForAuthor?
    ensures step.ReadForPut? ==>
              var plan := PlanPut(w, g, sys.shelf, step.from, step.es);
              plan.Ok? ==> Current(w, g, sys.shelf, PutPending(plan.value, step.standings, step.now))
    ensures step.ReadForAuthor? ==>
              var plan := PlanAuthor(w, g, sys.shelf, step.key, step.op, step.at);
              plan.Ok? ==> Current(w, g, sys.shelf, AuthorPending(plan.value, step.at))
  {
    if log :| Stores(w, g, sys.shelf, log) {
      assert Extends(log, log);
      match step
      case ReadForPut(from, es, _, _) => PlanPutIsSound(w, g, sys.shelf, log, from, es);
      case ReadForAuthor(key, op, at) => PlanAuthorIsSound(w, g, sys.shelf, log, key, op, at);
    }
  }

  lemma GrowingKeepsConsistent(w: World, g: GroupId, sys: System, after: System)
    requires Consistent(w, g, sys)
    requires LogStored(w, g, after.shelf) && Grows(w, g, sys.shelf, after.shelf)
    requires forall p :: p in after.pending ==> p in sys.pending
    ensures Consistent(w, g, after)
  {
    forall i | 0 <= i < |after.pending| ensures Current(w, g, after.shelf, after.pending[i]) {
      assert after.pending[i] in sys.pending;
      GrowingKeepsCurrent(w, g, sys.shelf, after.shelf, after.pending[i]);
    }
  }

  lemma SpeakingGrows(w: World, me: Peer, g: GroupId, shelf: Shelf, s: Standing, body: StandingBody, position: Position)
    requires LogStored(w, g, shelf)
    ensures var after := Speak(me, shelf, s, body, position);
            LogStored(w, g, after) && Grows(w, g, shelf, after)
  {
    var after := Speak(me, shelf, s, body, position);
    if log :| Stores(w, g, shelf, log) {
      assert Stores(w, g, after, log) && Extends(log, log);
      OnlyLogGrows(w, g, shelf, after, log);
    }
  }

  lemma ReadingKeepsConsistent(w: World, me: Peer, g: GroupId, sys: System, step: Step)
    requires Consistent(w, g, sys) && (step.ReadForPut? || step.ReadForAuthor?)
    ensures Consistent(w, g, Next(w, me, g, sys, step)) && Next(w, me, g, sys, step).shelf == sys.shelf
  {
    ReadIsCurrent(w, g, sys, step);
    match step
    case ReadForPut(from, es, standings, now) =>
      var plan := PlanPut(w, g, sys.shelf, from, es);
      if plan.Ok? {
        PreparingKeepsConsistent(w, g, sys, PutPending(plan.value, standings, now));
      }
    case ReadForAuthor(key, op, at) =>
      var plan := PlanAuthor(w, g, sys.shelf, key, op, at);
      if plan.Ok? {
        PreparingKeepsConsistent(w, g, sys, AuthorPending(plan.value, at));
      }
  }

  lemma LookingKeepsConsistent(w: World, me: Peer, g: GroupId, sys: System, step: Step)
    requires Consistent(w, g, sys) && (step.ReadForRefresh? || step.ReadForAdopt? || step.ReadForCreate?)
    ensures Consistent(w, g, Next(w, me, g, sys, step)) && Next(w, me, g, sys, step).shelf == sys.shelf
  {
    match step
    case ReadForRefresh =>
      var read := ReadChain(w, g, sys.shelf);
      if read.Ok? {
        PreparingKeepsConsistent(w, g, sys, RefreshPending(read.value));
      }
    case ReadForAdopt(es, now) =>
      var loaded := LoadLog(w, es);
      if loaded.Ok? && loaded.value.id == g && sys.shelf.row.None? {
        LoadIsValidity(w, es, loaded.value);
        PreparingKeepsConsistent(w, g, sys, InsertPending(loaded.value, now));
      }
    case ReadForCreate(key, name, nonce, username, at) =>
      var plan := PlanCreate(w, key, name, nonce, username, at, map[g := sys.shelf]);
      if plan.Ok? && plan.value.0.id == g {
        CreatedLogIsValid(w, key, name, nonce, at, plan.value.0);
        PreparingKeepsConsistent(w, g, sys, CreatePending(plan.value.0, plan.value.1, plan.value.2, at));
      }
  }

  lemma CreatedLogIsValid(w: World, key: Peer, name: Name, nonce: Bytes, at: int, log: Log)
    requires CreateLog(w, key, name, nonce, at) == Ok(log)
    ensures ValidLog(w, log)
  {
    var entry := SignEntry(w, key, EntryBody(Zero, 0, NoParent, at, Create(Base58(key), nonce, name))).value;
    LoadIsValidity(w, [entry], log);
  }

  lemma CommittingKeepsConsistent(w: World, me: Peer, g: GroupId, sys: System, i: nat)
    requires Consistent(w, g, sys)
    ensures Consistent(w, g, Next(w, me, g, sys, CommitOne(i)))
    ensures Grows(w, g, sys.shelf, Next(w, me, g, sys, CommitOne(i)).shelf)
  {
    if i < |sys.pending| {
      RunGrows(w, me, g, sys.shelf, sys.pending[i]);
      var shelf := Run(w, me, g, sys.shelf, sys.pending[i]);
      GrowingKeepsConsistent(w, g, sys, System(shelf, sys.pending[..i] + sys.pending[i + 1..]));
    } else {
      StandingStill(w, g, sys.shelf);
    }
  }

  lemma NextKeepsConsistent(w: World, me: Peer, g: GroupId, sys: System, step: Step)
    requires Consistent(w, g, sys)
    ensures Consistent(w, g, Next(w, me, g, sys, step))
    ensures Grows(w, g, sys.shelf, Next(w, me, g, sys, step).shelf)
  {
    StandingStill(w, g, sys.shelf);
    match step
    case ReadForPut(_, _, _, _) => ReadingKeepsConsistent(w, me, g, sys, step);
    case ReadForAuthor(_, _, _) => ReadingKeepsConsistent(w, me, g, sys, step);
    case ReadForRefresh => LookingKeepsConsistent(w, me, g, sys, step);
    case ReadForAdopt(_, _) => LookingKeepsConsistent(w, me, g, sys, step);
    case ReadForCreate(_, _, _, _, _) => LookingKeepsConsistent(w, me, g, sys, step);
    case CommitOne(i) => CommittingKeepsConsistent(w, me, g, sys, i);
    case SpeakNow(key, position, username, at) =>
      var said := SayPosition(w, me, g, sys.shelf, key, position, username, at);
      if said.Ok? {
        SpeakingGrows(w, me, g, sys.shelf, said.value.0, said.value.1, position);
        GrowingKeepsConsistent(w, g, sys, Next(w, me, g, sys, step));
      }
  }

  /** Over any interleaving of reads and transactions, from a group in step or not held: after every
      step the entries table is one valid log, as long as the head says and ending in the head's
      hash, and the log only ever gains entries at its end. */
  lemma {:induction false} EveryInterleavingKeepsTheLog(
      w: World, me: Peer, g: GroupId, shelf: Shelf, steps: seq<Step>)
    requires InStep(w, g, shelf)
    ensures var sys := After(w, me, g, System(shelf, []), steps);
            && Consistent(w, g, sys)
            && Grows(w, g, shelf, sys.shelf)
  {
    if steps != [] {
      var so := After(w, me, g, System(shelf, []), steps[..|steps| - 1]);
      EveryInterleavingKeepsTheLog(w, me, g, shelf, steps[..|steps| - 1]);
      NextKeepsConsistent(w, me, g, so, steps[|steps| - 1]);
      var after := Next(w, me, g, so, steps[|steps| - 1]);
      forall log | Stores(w, g, shelf, log)
        ensures exists next :: Stores(w, g, after.shelf, next) && Extends(next, log)
      {
        var mid :| Stores(w, g, so.shelf, mid) && Extends(mid, log);
        var next :| Stores(w, g, after.shelf, next) && Extends(next, mid);
        assert Extends(next, log);
      }
    }
  }
}
