/** What every operation of the store keeps, taken one after another: the entries are the rows of
    one valid log, the head is its end, and the derived tables are those recomputed from it. */
module StoreLaws {
  import opened Base
  import opened Wire
  import opened Standings
  import opened Memberships
  import opened Chains
  import opened ChainLaws
  import opened Tables

  // ---- the entries table as a sequence ----

  ghost function Table(es: seq<Entry>): map<nat, Entry> {
    map i: nat | i < |es| :: es[i]
  }

  ghost function Interval(lo: nat, hi: nat): (r: set<nat>)
    ensures forall i :: i in r <==> lo <= i < hi
    decreases hi - lo
  {
    if lo >= hi then {} else {lo} + Interval(lo + 1, hi)
  }

  lemma {:induction false} AscendingInterval(lo: nat, hi: nat)
    requires lo <= hi
    ensures |Ascending(Interval(lo, hi))| == hi - lo
    ensures forall i :: 0 <= i < hi - lo ==> Ascending(Interval(lo, hi))[i] == lo + i
    decreases hi - lo
  {
    if lo < hi {
      assert lo in Interval(lo, hi);
      assert Least(Interval(lo, hi)) == lo;
      assert Interval(lo, hi) - {lo} == Interval(lo + 1, hi);
      AscendingInterval(lo + 1, hi);
    }
  }

  lemma RowsOfTable(es: seq<Entry>)
    ensures Rows(Table(es)) == es
  {
    assert Table(es).Keys == Interval(0, |es|);
    AscendingInterval(0, |es|);
  }

  lemma {:induction false} WriteAtEnd(a: seq<Entry>, b: seq<Entry>)
    ensures WriteEntries(Table(a), |a|, b) == Table(a + b)
    decreases |b|
  {
    if b == [] {
      assert a + b == a;
    } else {
      assert Table(a)[|a| := b[0]] == Table(a + [b[0]]);
      WriteAtEnd(a + [b[0]], b[1..]);
      assert a + [b[0]] + b[1..] == a + b;
    }
  }

  /** Entries are written where there is none yet; one that is there is never written over. */
  lemma {:induction false} NothingIsWrittenOver(m: map<nat, Entry>, from: nat, es: seq<Entry>, i: nat)
    ensures i in WriteEntries(m, from, es) <==> i in m || from <= i < from + |es|
    ensures i in m ==> WriteEntries(m, from, es)[i] == m[i]
    ensures i !in m && from <= i < from + |es| ==> WriteEntries(m, from, es)[i] == es[i - from]
    decreases |es|
  {
    if es != [] {
      NothingIsWrittenOver(if from in m then m else m[from := es[0]], from + 1, es[1..], i);
    }
  }

  // ---- the invariant ----

  /** The group's row and entries are those of `log`. */
  ghost predicate Stores(w: World, g: GroupId, shelf: Shelf, log: Log) {
    && shelf.row.Some?
    && ValidLog(w, log) && log.id == g
    && shelf.entries == Table(log.Raw())
    && shelf.row.value.headSeq == |log.entries|
    && shelf.row.value.headHash == log.Head()
    && shelf.row.value.admin == log.admin
  }

  /** The derived tables are the ones recomputed from the log and the standings table. */
  ghost predicate Cached(w: World, shelf: Shelf, log: Log) {
    && shelf.row.Some?
    && shelf.members == Named(log.Members(), ReadStandings(w, shelf.standings))
    && shelf.standings.Keys <= shelf.members.Keys
    && shelf.row.value.digest == DigestOf(w, log.Members(), ReadStandings(w, shelf.standings))
    && shelf.row.value.name == log.Name()
  }

  /** A group that is not held has no entries and no members. */
  ghost predicate Unheld(shelf: Shelf) {
    shelf.row.None? && shelf.entries == map[] && shelf.members == map[]
  }

  ghost predicate InStep(w: World, g: GroupId, shelf: Shelf) {
    Unheld(shelf) || exists log :: Stores(w, g, shelf, log) && Cached(w, shelf, log)
  }

  lemma StoredLogIsRead(w: World, g: GroupId, shelf: Shelf, log: Log)
    requires Stores(w, g, shelf, log)
    ensures ReadChain(w, g, shelf) == Ok(log)
  {
    RowsOfTable(log.Raw());
    LoadIsValidity(w, log.Raw(), log);
    assert 0 in shelf.entries;
  }

  // ---- what rebuilding and taking in standings do ----

  lemma RebuiltIsCached(w: World, shelf: Shelf, log: Log)
    requires shelf.row.Some?
    ensures var rebuilt := RebuildCaches(w, shelf, log, ReadStandings(w, shelf.standings));
            Cached(w, rebuilt.(row := Touched(rebuilt.row, log.Name(), 0)), log)
            && rebuilt.members == Named(log.Members(), ReadStandings(w, shelf.standings))
  {
    var held := ReadStandings(w, shelf.standings);
    var rebuilt := RebuildCaches(w, shelf, log, held);
    var kept := ReadStandings(w, rebuilt.standings);
    var roster := log.Members();
    assert Named(roster, held).Keys == roster.Keys;
    assert forall p :: p in roster ==> (p in kept <==> p in held);
    assert forall p :: p in roster && p in kept ==> kept[p] == held[p];
    assert Named(roster, held) == Named(roster, kept);
    SaidIgnoresOthers(roster.Keys, held, kept);
  }

  lemma {:induction false} TakeAllReadsBack(
      w: World, g: GroupId, log: Log, members: Roster, so: Intake, standings: seq<Standing>)
    requires so.held == ReadStandings(w, so.rows)
    ensures var done := TakeAll(w, g, log, members, so, standings);
            done.held == ReadStandings(w, done.rows)
    decreases |standings|
  {
    if standings != [] {
      var next := TakeIn(w, g, log, members, so, standings[0]);
      assert next.held == ReadStandings(w, next.rows);
      TakeAllReadsBack(w, g, log, members, next, standings[1..]);
    }
  }

  // ---- the two halves of put ----

  /** A plan made when the log was `base`. */
  ghost predicate PlannedFrom(w: World, g: GroupId, plan: PutPlan, base: Log) {
    && ValidLog(w, base) && base.id == g
    && plan.observed == |base.entries|
    && plan.before == base.Members()
    && ValidLog(w, plan.log) && Extends(plan.log, base)
    && plan.log.Raw() == base.Raw() + plan.unseen
  }

  lemma PlanPutIsSound(w: World, g: GroupId, shelf: Shelf, log: Log, from: nat, es: seq<Entry>)
    requires Stores(w, g, shelf, log)
    ensures var plan := PlanPut(w, g, shelf, from, es);
            plan.Ok? ==> PlannedFrom(w, g, plan.value, log)
  {
    StoredLogIsRead(w, g, shelf, log);
    var plan := PlanPut(w, g, shelf, from, es);
    if plan.Ok? {
      ExtendIsValidity(w, log, plan.value.unseen, plan.value.log);
    }
  }

  lemma SameLengthSameLog(w: World, a: Log, b: Log)
    requires Extends(b, a) && |a.entries| == |b.entries|
    ensures a == b
  {
  }

  lemma ExtendedTable(w: World, a: Log, b: Log, added: seq<Entry>)
    requires Extends(b, a) && b.Raw() == a.Raw() + added
    ensures WriteEntries(Table(a.Raw()), |a.entries|, added) == Table(b.Raw())
    ensures |b.entries| == |a.entries| + |added|
    ensures added == [] ==> a == b
  {
    WriteAtEnd(a.Raw(), added);
    assert |b.Raw()| == |b.entries| && |a.Raw()| == |a.entries|;
  }

  /** Committing a plan over the log it was made from, or over any extension of that log: it is
      refused if the head moved and entries were to be added, and otherwise the entries are those
      of the planned log (if there were new ones) or as they were. */
  lemma CommitPutMovesHead(
      w: World, me: Peer, g: GroupId, shelf: Shelf, log: Log, plan: PutPlan, base: Log,
      standings: seq<Standing>, now: int)
    requires Stores(w, g, shelf, log)
    requires PlannedFrom(w, g, plan, base) && Extends(log, base)
    ensures var r := CommitPut(w, me, g, shelf, plan, standings, now);
            && (r.Err? <==> plan.unseen != [] && |log.entries| != plan.observed)
            && (r.Err? ==> r.error == Raced(g))
            && (r.Ok? && plan.unseen != [] ==> log == base && Stores(w, g, r.value.0, plan.log))
            && (r.Ok? && plan.unseen == [] ==> Stores(w, g, r.value.0, log))
  {
    ExtendedTable(w, base, plan.log, plan.unseen);
    if |log.entries| == plan.observed {
      SameLengthSameLog(w, base, log);
    }
  }

  /** Committing over the very log the plan was made from brings the caches into step. */
  lemma CommitPutCaches(
      w: World, me: Peer, g: GroupId, shelf: Shelf, log: Log, plan: PutPlan, standings: seq<Standing>, now: int)
    requires Stores(w, g, shelf, log) && PlannedFrom(w, g, plan, log)
    ensures var r := CommitPut(w, me, g, shelf, plan, standings, now);
            r.Ok? && Stores(w, g, r.value.0, plan.log) && Cached(w, r.value.0, plan.log)
  {
    CommitPutMovesHead(w, me, g, shelf, log, plan, log, standings, now);
    ExtendedTable(w, log, plan.log, plan.unseen);
    var so := Intake(ReadStandings(w, shelf.standings), shelf.standings, []);
    TakeAllReadsBack(w, g, plan.log, plan.log.Members(), so, standings);
    var intake := TakeAll(w, g, plan.log, plan.log.Members(), so, standings);
    var moved := SetHead(shelf.row, plan.observed, |plan.log.entries|, plan.log.Head());
    var written :=
      if |plan.unseen| > 0
      then shelf.(entries := WriteEntries(shelf.entries, plan.observed, plan.unseen), row := moved.0)
      else shelf;
    RebuiltIsCached(w, written.(standings := intake.rows), plan.log);
  }

  // ---- every operation, from tables in step ----

  /** `put` keeps the tables in step, adds at the end if at all, and changes nothing if refused. */
  lemma PutKeepsStep(
      w: World, me: Peer, g: GroupId, shelf: Shelf, from: nat, es: seq<Entry>, standings: seq<Standing>, now: int)
    requires InStep(w, g, shelf)
    ensures var (after, r) := PutShelf(w, me, g, shelf, from, es, standings, now);
            && InStep(w, g, after)
            && (r.Err? ==> after == shelf)
            && (forall log :: Stores(w, g, shelf, log) && r.Ok? ==>
                  exists next :: Stores(w, g, after, next) && Cached(w, after, next) && Extends(next, log))
  {
    if log :| Stores(w, g, shelf, log) {
      PlanPutIsSound(w, g, shelf, log, from, es);
      var plan := PlanPut(w, g, shelf, from, es);
      if plan.Ok? {
        CommitPutCaches(w, me, g, shelf, log, plan.value, standings, now);
        forall other | Stores(w, g, shelf, other) ensures other == log {
          StoredLogIsRead(w, g, shelf, other);
          StoredLogIsRead(w, g, shelf, log);
        }
      }
    }
  }

  /** A plan of `author`, made when the log was `base`. */
  ghost predicate AuthoredFrom(w: World, g: GroupId, plan: AuthorPlan, base: Log) {
    && ValidLog(w, base) && base.id == g
    && plan.observed == |base.entries|
    && ValidLog(w, plan.log) && Extends(plan.log, base)
    && plan.log.Raw() == base.Raw() + [plan.entry]
  }

  lemma PlanAuthorIsSound(w: World, g: GroupId, shelf: Shelf, log: Log, key: Peer, op: Op, at: int)
    requires Stores(w, g, shelf, log)
    ensures var plan := PlanAuthor(w, g, shelf, key, op, at);
            plan.Ok? ==> AuthoredFrom(w, g, plan.value, log) && key == log.admin
  {
    StoredLogIsRead(w, g, shelf, log);
    var plan := PlanAuthor(w, g, shelf, key, op, at);
    if plan.Ok? {
      ExtendIsValidity(w, log, [plan.value.entry], plan.value.log);
    }
  }

  lemma CommitAuthorMovesHead(
      w: World, g: GroupId, shelf: Shelf, log: Log, plan: AuthorPlan, base: Log, at: int)
    requires Stores(w, g, shelf, log)
    requires AuthoredFrom(w, g, plan, base) && Extends(log, base)
    ensures var r := CommitAuthor(w, g, shelf, plan, at);
            && (r.Err? <==> |log.entries| != plan.observed)
            && (r.Err? ==> r.error == Raced(g))
            && (r.Ok? ==> log == base && Stores(w, g, r.value, plan.log) && Cached(w, r.value, plan.log))
  {
    ExtendedTable(w, base, plan.log, [plan.entry]);
    if |log.entries| == plan.observed {
      SameLengthSameLog(w, base, log);
      var moved := SetHead(shelf.row, plan.observed, |plan.log.entries|, plan.log.Head());
      var written := shelf.(entries := WriteEntries(shelf.entries, plan.observed, [plan.entry]), row := moved.0);
      RebuiltIsCached(w, written, plan.log);
    }
  }

  lemma AuthorKeepsStep(w: World, g: GroupId, shelf: Shelf, key: Peer, op: Op, at: int)
    requires InStep(w, g, shelf)
    ensures var (after, r) := AuthorShelf(w, g, shelf, key, op, at);
            && InStep(w, g, after)
            && (r.Err? ==> after == shelf)
            && (forall log :: Stores(w, g, shelf, log) && r.Ok? ==>
                  && key == log.admin
                  && exists next :: Stores(w, g, after, next) && Extends(next, log)
                                    && next.Raw() == log.Raw() + [r.value])
  {
    if log :| Stores(w, g, shelf, log) {
      PlanAuthorIsSound(w, g, shelf, log, key, op, at);
      var plan := PlanAuthor(w, g, shelf, key, op, at);
      if plan.Ok? {
        CommitAuthorMovesHead(w, g, shelf, log, plan.value, log, at);
        forall other | Stores(w, g, shelf, other) ensures other == log {
          StoredLogIsRead(w, g, shelf, other);
          StoredLogIsRead(w, g, shelf, log);
        }
      }
    }
  }

  /** `author_standing` keeps the tables in step and the log as it was. A refusal leaves the
      tables alone exactly when nothing could be signed or the group is held: for a group that is
      not held, the statement is stored before the refusal. */
  lemma AuthorStandingKeepsStep(
      w: World, me: Peer, g: GroupId, shelf: Shelf, key: Peer, position: Position, username: Name, at: int)
    requires InStep(w, g, shelf)
    ensures var (after, r) := AuthorStandingShelf(w, me, g, shelf, key, position, username, at);
            var signed := SayPosition(w, me, g, shelf, key, position, username, at).Ok?;
            && InStep(w, g, after)
            && (r.Ok? <==> signed && shelf.row.Some?)
            && (signed && shelf.row.None? ==> r == Err(UnknownGroup(g)))
            && (r.Err? ==>
                  (after.row == shelf.row && after.entries == shelf.entries && after.members == shelf.members))
            && (signed && shelf.row.None? ==>
                  && me in after.standings
                  && after.standings[me].standing == SayPosition(w, me, g, shelf, key, position, username, at).value.0)
            && (!signed ==> after == shelf)
            && (forall log :: Stores(w, g, shelf, log) ==> Stores(w, g, after, log))
  {
    var said := SayPosition(w, me, g, shelf, key, position, username, at);
    if said.Ok? {
      var spoken := Speak(me, shelf, said.value.0, said.value.1, position);
      if log :| Stores(w, g, shelf, log) && Cached(w, shelf, log) {
        RefreshedSpeech(w, g, shelf, spoken, log);
      }
    }
  }

  /** With the row moved but not its head, and whatever statements, refreshing brings the caches up to date. */
  lemma RefreshedSpeech(w: World, g: GroupId, shelf: Shelf, spoken: Shelf, log: Log)
    requires Stores(w, g, shelf, log)
    requires spoken.row.Some? && spoken.entries == shelf.entries && spoken.row.value.admin == shelf.row.value.admin
    requires spoken.row.value.headSeq == shelf.row.value.headSeq && spoken.row.value.name == log.Name()
    requires spoken.row.value.headHash == shelf.row.value.headHash
    ensures ReadChain(w, g, spoken) == Ok(log)
    ensures var after := Refresh(w, spoken, log);
            Stores(w, g, after, log) && Cached(w, after, log)
    ensures forall other :: Stores(w, g, shelf, other) ==> other == log
  {
    assert Stores(w, g, spoken, log);
    StoredLogIsRead(w, g, spoken, log);
    RebuiltIsCached(w, spoken, log);
    forall other | Stores(w, g, shelf, other) ensures other == log {
      StoredLogIsRead(w, g, shelf, other);
      StoredLogIsRead(w, g, shelf, log);
    }
  }

  lemma InsertedStores(w: World, shelf: Shelf, log: Log, state: State, now: int)
    requires Unheld(shelf) && ValidLog(w, log)
    ensures Stores(w, log.id, Inserted(shelf, log, state, now), log)
  {
    assert Table([]) == map[];
    WriteAtEnd([], log.Raw());
    assert [] + log.Raw() == log.Raw();
    assert |log.Raw()| == |log.entries|;
  }

  /** `create` leaves the new group in step, whatever statements were lying about under its id. */
  lemma CreateKeepsStep(
      w: World, key: Peer, name: Name, nonce: Bytes, username: Name, at: int, db: Db)
    requires forall g :: InStep(w, g, At(db, g))
    ensures match PlanCreate(w, key, name, nonce, username, at, db)
            case Err(_) => true
            case Ok((log, s, body)) =>
              var after := CreateShelf(w, At(db, log.id), log, s, body, at);
              && Stores(w, log.id, after, log) && Cached(w, after, log)
              && |log.entries| == 1
              && after.standings == map[log.admin := StandingRow(body.seqNo, body.position, s)]
  {
    var plan := PlanCreate(w, key, name, nonce, username, at, db);
    if plan.Ok? {
      var (log, s, body) := plan.value;
      var shelf := At(db, log.id);
      assert InStep(w, log.id, shelf) && shelf.row.None?;
      var genesis := SignEntry(w, key, EntryBody(Zero, 0, NoParent, at, Create(Base58(key), nonce, name))).value;
      LoadIsValidity(w, [genesis], log);
      assert |log.Raw()| == 1 && log.Raw()[0] == genesis;
      CreatedIsCached(w, shelf, log, s, body, at);
    }
  }

  lemma CreatedMembers(log: Log)
    requires |log.entries| == 1 && log.entries[0].body.op.Create?
    ensures log.Members() == Apply(map[], log.entries[0].body.op)
  {
    var before := Fold(log.entries[..0]);
    assert before == map[];
    assert log.Members() == Apply(before, log.entries[0].body.op);
  }

  lemma CreatedIsCached(w: World, shelf: Shelf, log: Log, s: Standing, body: StandingBody, at: int)
    requires Unheld(shelf) && ValidLog(w, log) && |log.entries| == 1
    requires VerifyStanding(w, s, log.id) == Ok(body)
    ensures var after := CreateShelf(w, shelf, log, s, body, at);
            && Stores(w, log.id, after, log) && Cached(w, after, log)
            && after.standings == map[log.admin := StandingRow(body.seqNo, body.position, s)]
  {
    InsertedStores(w, shelf, log, Active, at);
    CreatedMembers(log);
    var after := CreateShelf(w, shelf, log, s, body, at);
    var said := map[log.admin := Held(s, body.seqNo, body.position, body.username)];
    assert log.Members().Keys == {log.admin};
    assert after.standings == map[log.admin := StandingRow(body.seqNo, body.position, s)];
    assert ReadStandings(w, after.standings) == said;
    assert Named(log.Members(), said).Keys == log.Members().Keys;
  }

  /** `adopt` stores a valid log whole, in step, and otherwise does what `put` does. */
  lemma AdoptKeepsStep(
      w: World, me: Peer, shelf: Shelf, log: Log, es: seq<Entry>, standings: seq<Standing>, now: int)
    requires InStep(w, log.id, shelf) && LoadLog(w, es) == Ok(log)
    ensures var (after, r) := AdoptShelf(w, me, shelf, log, es, standings, now);
            && InStep(w, log.id, after)
            && (r.Err? ==> shelf.row.Some? && after == shelf)
            && (shelf.row.None? ==>
                  && r.Ok? && Stores(w, log.id, after, log) && Cached(w, after, log)
                  && after.row.value.state == Pending && r.value.accepted == |es|
                  && (r.value.weJoined <==> me in log.Members()))
  {
    LoadIsValidity(w, es, log);
    assert |log.Raw()| == |log.entries|;
    PutKeepsStep(w, me, log.id, shelf, 0, es, standings, now);
    if shelf.row.None? {
      InsertedStores(w, shelf, log, Pending, now);
      var inserted := AdoptInsert(w, shelf, log, now);
      assert Stores(w, log.id, inserted, log);
      StoredLogIsRead(w, log.id, inserted, log);
      PlanPutIsSound(w, log.id, inserted, log, |log.entries|, []);
      var plan := PlanPut(w, log.id, inserted, |log.entries|, []);
      assert plan == Ok(PutPlan(log.Members(), |log.entries|, [], log));
      CommitPutCaches(w, me, log.id, inserted, log, plan.value, standings, now);
    }
  }
}
