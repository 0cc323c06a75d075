/** The four tables of the group store, gathered by group, and what each transaction does to them
    (crates/ac-groups/src/store.rs). A transaction is a function from the tables it starts from to
    the tables it commits, so an error leaves them as they were.

    `put`, `author` and `adopt` read before they open their transaction; that first half is a
    `Plan...` function of the tables then, the second a `Commit...` function of the tables later. */
module Tables {
  import opened Base
  import opened Wire
  import opened Standings
  import opened Memberships
  import opened Chains
  import opened ChainLaws

  datatype State = Pending | Active | Left

  datatype GroupRow = GroupRow(
    name: Name, admin: Peer, state: State, headSeq: nat, headHash: EntryHash, digest: Digest,
    firstSeen: int, lastSynced: int, news: nat)

  datatype StandingRow = StandingRow(seqNo: U64, position: Position, standing: Standing)

  /** One group's rows: `groups`, `group_entries` by seq, `group_standings` and `group_members`. */
  datatype Shelf = Shelf(
    row: Option<GroupRow>,
    entries: map<nat, Entry>,
    standings: map<Peer, StandingRow>,
    members: Roster)

  const BARE := Shelf(None, map[], map[], map[])

  type Db = map<GroupId, Shelf>

  function At(db: Db, g: GroupId): Shelf {
    if g in db then db[g] else BARE
  }

  datatype StoreError =
    | ChainFault(chain: ChainError)
    | StandingFault(standing: StandingError)
    | UnknownGroup(group: GroupId)
    | Duplicate(group: GroupId)
    | Gap(want: nat, got: nat)
    | Diverged(group: GroupId, seqNo: nat)
    | Raced(group: GroupId)

  datatype Applied = Applied(
    accepted: nat, headSeq: nat, added: seq<Peer>, removed: seq<Peer>,
    weJoined: bool, weLost: bool, departed: seq<Peer>)

  // ---- reads ----

  /** The entries in seq order. */
  function Rows(m: map<nat, Entry>): seq<Entry> {
    var order := Ascending(m.Keys);
    AscendingStays(m.Keys);
    seq(|order|, i requires 0 <= i < |order| => m[order[i]])
  }

  lemma {:induction false} AscendingStays(s: set<nat>)
    ensures forall i :: 0 <= i < |Ascending(s)| ==> Ascending(s)[i] in s
  {
    if s != {} {
      AscendingStays(s - {Least(s)});
    }
  }

  function ReadChain(w: World, g: GroupId, shelf: Shelf): Result<Log, StoreError> {
    if shelf.entries == map[] then Err(UnknownGroup(g))
    else
      match LoadLog(w, Rows(shelf.entries))
      case Err(e) => Err(ChainFault(e))
      case Ok(log) => Ok(log)
  }

  function ReadStandings(w: World, rows: map<Peer, StandingRow>): Register {
    map p | p in rows && w.StandingBodyOf(rows[p].standing).Some? ::
      Held(rows[p].standing, rows[p].seqNo, rows[p].position, w.StandingBodyOf(rows[p].standing).value.username)
  }

  /** The standings in peer order, as they are served. */
  function StandingsOf(rows: map<Peer, StandingRow>): seq<Standing> {
    var order := Ascending(rows.Keys);
    AscendingStays(rows.Keys);
    seq(|order|, i requires 0 <= i < |order| => rows[order[i]].standing)
  }

  datatype Served = Served(entries: seq<Entry>, standings: seq<Standing>)

  /** Members are served all of the log and the standings, former members the log to their removal and
      nothing else, and anyone else is refused. */
  function Serve(w: World, me: Peer, g: GroupId, shelf: Shelf, peer: Peer, from: nat)
    : Result<Option<Served>, StoreError>
  {
    if me !in shelf.members then Ok(None)
    else
      match ReadChain(w, g, shelf)
      case Err(e) => Err(e)
      case Ok(log) =>
        if peer in shelf.members then
          Ok(Some(Served(Between(log, from, |log.entries|), StandingsOf(shelf.standings))))
        else
          match Departure(log.entries, peer)
          case None => Ok(None)
          case Some(removedAt) => Ok(Some(Served(Between(log, from, removedAt + 1), [])))
  }

  // ---- writes, one statement each ----

  /** `INSERT OR IGNORE` of consecutive entries. */
  function WriteEntries(m: map<nat, Entry>, from: nat, es: seq<Entry>): map<nat, Entry>
    decreases |es|
  {
    if es == [] then m
    else WriteEntries(if from in m then m else m[from := es[0]], from + 1, es[1..])
  }

  /** The head moves if it is still where it was seen; the row after, and the rows changed. */
  function SetHead(row: Option<GroupRow>, observed: nat, headSeq: nat, headHash: EntryHash)
    : (Option<GroupRow>, nat)
  {
    if row.Some? && row.value.headSeq == observed
    then (Some(row.value.(headSeq := headSeq, headHash := headHash)), 1)
    else (row, 0)
  }

  function WithDigest(row: Option<GroupRow>, digest: Digest): Option<GroupRow> {
    if row.None? then None else Some(row.value.(digest := digest))
  }

  function Touched(row: Option<GroupRow>, name: Name, now: int): Option<GroupRow> {
    if row.None? then None else Some(row.value.(name := name, lastSynced := now))
  }

  function WithNews(row: Option<GroupRow>): Option<GroupRow> {
    if row.None? then None else Some(row.value.(news := row.value.news + 1))
  }

  function WithState(row: Option<GroupRow>, state: State): Option<GroupRow> {
    if row.None? then None else Some(row.value.(state := state))
  }

  function RebuildCaches(w: World, shelf: Shelf, log: Log, standings: Register): Shelf {
    var members := Named(log.Members(), standings);
    shelf.(
      members := members,
      standings := map p | p in shelf.standings && p in members :: shelf.standings[p],
      row := WithDigest(shelf.row, DigestOf(w, members, standings)))
  }

  // ---- put ----

  /** What `put` has worked out before its transaction starts. */
  datatype PutPlan = PutPlan(before: Roster, observed: nat, unseen: seq<Entry>, log: Log)

  function Overlap(head: nat, from: nat, n: nat): nat {
    var behind := if head >= from then head - from else 0;
    if behind <= n then behind else n
  }

  /** The first of `es[i..n]` whose hash is not the one held at its position. */
  function FirstDifference(log: Log, from: nat, es: seq<Entry>, i: nat, n: nat): Option<nat>
    requires i <= n <= |es|
    decreases n - i
  {
    if i == n then None
    else if log.HashAt(from + i) != Some(es[i].Hash()) then Some(from + i)
    else FirstDifference(log, from, es, i + 1, n)
  }

  function PlanPut(w: World, g: GroupId, shelf: Shelf, from: nat, es: seq<Entry>): Result<PutPlan, StoreError> {
    if shelf.row.None? then Err(UnknownGroup(g))
    else
      match ReadChain(w, g, shelf)
      case Err(e) => Err(e)
      case Ok(log) =>
        var head := |log.entries|;
        var overlap := Overlap(head, from, |es|);
        match FirstDifference(log, from, es, 0, overlap)
        case Some(seqNo) => Err(Diverged(g, seqNo))
        case None =>
          if from > head then Err(Gap(head, from))
          else
            match ExtendLog(w, log, es[overlap..])
            case Err(e) => Err(ChainFault(e))
            case Ok(next) => Ok(PutPlan(log.Members(), head, es[overlap..], next))
  }

  /** The standings table and the departures noticed, as a batch of standings is taken in. */
  datatype Intake = Intake(held: Register, rows: map<Peer, StandingRow>, departed: seq<Peer>)

  function TakeIn(w: World, g: GroupId, log: Log, members: Roster, so: Intake, s: Standing): Intake {
    match VerifyStanding(w, s, g)
    case Err(_) => so
    case Ok(body) =>
      match Parse(body.peer)
      case None => so
      case Some(peer) =>
        var h := Held(s, body.seqNo, body.position, body.username);
        if !EverMentioned(log, peer) || (peer in so.held && !Wins(h.Rank(), so.held[peer].Rank())) then so
        else
          Intake(
            so.held[peer := h],
            so.rows[peer := StandingRow(body.seqNo, body.position, s)],
            if body.position.Out? && peer in members then so.departed + [peer] else so.departed)
  }

  function TakeAll(w: World, g: GroupId, log: Log, members: Roster, so: Intake, standings: seq<Standing>): Intake
    decreases |standings|
  {
    if standings == [] then so
    else TakeAll(w, g, log, members, TakeIn(w, g, log, members, so, standings[0]), standings[1..])
  }

  function Difference(a: Roster, b: Roster): seq<Peer> {
    Ascending(a.Keys - b.Keys)
  }

  function CommitPut(
      w: World, me: Peer, g: GroupId, shelf: Shelf, plan: PutPlan, standings: seq<Standing>, now: int)
      : Result<(Shelf, Applied), StoreError>
  {
    var accepted := |plan.unseen|;
    var moved := SetHead(shelf.row, plan.observed, |plan.log.entries|, plan.log.Head());
    if accepted > 0 && moved.1 == 0 then Err(Raced(g))
    else
      var written :=
        if accepted > 0
        then shelf.(entries := WriteEntries(shelf.entries, plan.observed, plan.unseen), row := moved.0)
        else shelf;
      var after := plan.log.Members();
      var intake := TakeAll(w, g, plan.log, after,
                            Intake(ReadStandings(w, written.standings), written.standings, []), standings);
      var rebuilt := RebuildCaches(w, written.(standings := intake.rows), plan.log, intake.held);
      Ok((rebuilt.(row := Touched(rebuilt.row, plan.log.Name(), now)),
          Applied(
            accepted, |plan.log.entries|, Difference(after, plan.before), Difference(plan.before, after),
            me !in plan.before && me in after, me in plan.before && me !in after, intake.departed)))
  }

  function PutShelf(
      w: World, me: Peer, g: GroupId, shelf: Shelf, from: nat, es: seq<Entry>, standings: seq<Standing>, now: int)
      : (Shelf, Result<Applied, StoreError>)
  {
    match PlanPut(w, g, shelf, from, es)
    case Err(e) => (shelf, Err(e))
    case Ok(plan) =>
      match CommitPut(w, me, g, shelf, plan, standings, now)
      case Err(e) => (shelf, Err(e))
      case Ok(done) => (done.0, Ok(done.1))
  }

  // ---- author ----

  datatype AuthorPlan = AuthorPlan(observed: nat, entry: Entry, log: Log)

  function PlanAuthor(w: World, g: GroupId, shelf: Shelf, key: Peer, op: Op, at: int): Result<AuthorPlan, StoreError> {
    if shelf.row.None? then Err(UnknownGroup(g))
    else
      match ReadChain(w, g, shelf)
      case Err(e) => Err(e)
      case Ok(log) =>
        match AuthorEntry(w, log, key, op, at)
        case Err(e) => Err(ChainFault(e))
        case Ok(made) => Ok(AuthorPlan(|log.entries|, made.0, made.1))
  }

  function CommitAuthor(w: World, g: GroupId, shelf: Shelf, plan: AuthorPlan, at: int): Result<Shelf, StoreError> {
    var moved := SetHead(shelf.row, plan.observed, |plan.log.entries|, plan.log.Head());
    if moved.1 == 0 then Err(Raced(g))
    else
      var written := shelf.(entries := WriteEntries(shelf.entries, plan.observed, [plan.entry]), row := moved.0);
      var rebuilt := RebuildCaches(w, written, plan.log, ReadStandings(w, written.standings));
      Ok(rebuilt.(row := WithNews(Touched(rebuilt.row, plan.log.Name(), at))))
  }

  function AuthorShelf(w: World, g: GroupId, shelf: Shelf, key: Peer, op: Op, at: int)
    : (Shelf, Result<Entry, StoreError>)
  {
    match PlanAuthor(w, g, shelf, key, op, at)
    case Err(e) => (shelf, Err(e))
    case Ok(plan) =>
      match CommitAuthor(w, g, shelf, plan, at)
      case Err(e) => (shelf, Err(e))
      case Ok(next) => (next, Ok(plan.entry))
  }

  // ---- a node's own position ----

  function StateFor(position: Position): State {
    match position
    case Unanswered => Pending
    case In => Active
    case Out => Left
  }

  function MyStandingSeq(shelf: Shelf, me: Peer): Option<U64> {
    if me in shelf.standings then Some(shelf.standings[me].seqNo) else None
  }

  /** The first transaction of `author_standing`: the statement and the local state. */
  function Speak(me: Peer, shelf: Shelf, s: Standing, body: StandingBody, position: Position): Shelf {
    shelf.(
      standings := shelf.standings[me := StandingRow(body.seqNo, body.position, s)],
      row := WithNews(WithState(shelf.row, StateFor(position))))
  }

  /** The second: the caches, from a log read before it starts. */
  function Refresh(w: World, shelf: Shelf, log: Log): Shelf {
    RebuildCaches(w, shelf, log, ReadStandings(w, shelf.standings))
  }

  function SayPosition(
      w: World, me: Peer, g: GroupId, shelf: Shelf, key: Peer, position: Position, username: Name, at: int)
      : Result<(Standing, StandingBody), StandingError>
  {
    match AuthorStanding(w, key, g, NextSeq(MyStandingSeq(shelf, me)), position, username, at)
    case Err(e) => Err(e)
    case Ok(s) =>
      match VerifyStanding(w, s, g)
      case Err(e) => Err(e)
      case Ok(body) => Ok((s, body))
  }

  function AuthorStandingShelf(
      w: World, me: Peer, g: GroupId, shelf: Shelf, key: Peer, position: Position, username: Name, at: int)
      : (Shelf, Result<Standing, StoreError>)
  {
    match SayPosition(w, me, g, shelf, key, position, username, at)
    case Err(e) => (shelf, Err(StandingFault(e)))
    case Ok(said) =>
      var spoken := Speak(me, shelf, said.0, said.1, position);
      match ReadChain(w, g, spoken)
      case Err(e) => (spoken, Err(e))
      case Ok(log) => (Refresh(w, spoken, log), Ok(said.0))
  }

  // ---- create and adopt ----

  function NewRow(log: Log, state: State, now: int): GroupRow {
    GroupRow(log.Name(), log.admin, state, 0, OfBody([]), Zeroes, now, now, 0)
  }

  /** The rows of a log just inserted: `INSERT INTO groups`, the entries and the head. */
  function Inserted(shelf: Shelf, log: Log, state: State, now: int): Shelf {
    shelf.(
      row := SetHead(Some(NewRow(log, state, now)), 0, |log.entries|, log.Head()).0,
      entries := WriteEntries(shelf.entries, 0, log.Raw()))
  }

  function CreateShelf(w: World, shelf: Shelf, log: Log, s: Standing, body: StandingBody, at: int): Shelf {
    var inserted := Inserted(shelf, log, Active, at);
    RebuildCaches(
      w, inserted.(standings := inserted.standings[log.admin := StandingRow(body.seqNo, body.position, s)]),
      log, map[log.admin := Held(s, body.seqNo, body.position, body.username)])
  }

  /** What `create` has made before its transaction: the log, and the admin's own statement. */
  function PlanCreate(w: World, key: Peer, name: Name, nonce: Bytes, username: Name, at: int, db: Db)
    : Result<(Log, Standing, StandingBody), StoreError>
  {
    match CreateLog(w, key, name, nonce, at)
    case Err(e) => Err(ChainFault(e))
    case Ok(log) =>
      if At(db, log.id).row.Some? then Err(Duplicate(log.id))
      else
        match AuthorStanding(w, key, log.id, NextSeq(None), In, username, at)
        case Err(e) => Err(StandingFault(e))
        case Ok(s) =>
          match VerifyStanding(w, s, log.id)
          case Err(e) => Err(StandingFault(e))
          case Ok(body) => Ok((log, s, body))
  }

  /** The transaction of `adopt`, for a group there is no row of. */
  function AdoptInsert(w: World, shelf: Shelf, log: Log, now: int): Shelf {
    RebuildCaches(w, Inserted(shelf, log, Pending, now), log, map[])
  }

  function AdoptShelf(
      w: World, me: Peer, shelf: Shelf, log: Log, es: seq<Entry>, standings: seq<Standing>, now: int)
      : (Shelf, Result<Applied, StoreError>)
  {
    if shelf.row.Some? then PutShelf(w, me, log.id, shelf, 0, es, standings, now)
    else
      var inserted := AdoptInsert(w, shelf, log, now);
      var put := PutShelf(w, me, log.id, inserted, |log.entries|, [], standings, now);
      match put.1
      case Err(e) => put
      case Ok(applied) =>
        (put.0, Ok(applied.(headSeq := |log.entries|, accepted := |log.entries|, weJoined := me in log.Members())))
  }
}
