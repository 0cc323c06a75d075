/** The group sync machine: what it asks peers for, and what it does with their answers
    (crates/ac-groups/src/sync.rs). */
module Sync {
  import opened Base
  import opened Wire
  import opened Standings
  import opened Memberships
  import opened Chains
  import opened ChainLaws
  import opened Tables
  import opened StoreLaws
  import opened Runs
  import opened Store
  import opened Exchange
  import opened Slots
  import opened Asking

  const PENDING_TTL := 30 * 24 * 3600

  datatype GroupEvent =
    | Heads(peer: Peer, heads: seq<GroupHead>)
    | Entries(peer: Peer, group: GroupId, from: nat, entries: seq<Entry>, standings: seq<Standing>)
    | Unavailable(peer: Peer, group: GroupId)
    | FetchFailed(peer: Peer, group: GroupId)
    | AskFailed(peer: Peer)
    | Tick(now: int, at: int)

  // ---- what an answer does to the tables ----

  /** A pending node that finds itself among the members and silent states its position. */
  function InvitationAnswered(w: World, me: Peer, username: Name, db: Db, g: GroupId, at: int): Db {
    var shelf := At(db, g);
    if shelf.row.Some? && shelf.row.value.state == Pending && me in shelf.members && me !in shelf.standings
    then Do(w, me, db, DoSay(g, Unanswered, username, at))
    else db
  }

  /** The admin removes, one entry each, the members who have newly left. */
  function Ratified(w: World, me: Peer, db: Db, g: GroupId, departed: seq<Peer>, at: int): Db
    decreases |departed|
  {
    if departed == [] then db
    else
      Ratified(
        w, me,
        if departed[0] == me then db else Do(w, me, db, DoAuthor(g, Remove(Base58(departed[0])), at)),
        g, departed[1..], at)
  }

  function Administers(me: Peer, db: Db, g: GroupId): bool {
    At(db, g).row.Some? && At(db, g).row.value.admin == me
  }

  function Settled(w: World, me: Peer, username: Name, db: Db, g: GroupId, applied: Applied, at: int): Db {
    var answered := InvitationAnswered(w, me, username, db, g, at);
    if Administers(me, answered, g) then Ratified(w, me, answered, g, applied.departed, at) else answered
  }

  /** What storing an answer says: `put` for a group held, `adopt` for any other. */
  function Outcome(
      w: World, me: Peer, db: Db, g: GroupId, from: nat, es: seq<Entry>, ss: seq<Standing>, at: int)
      : Result<Applied, StoreError>
  {
    if At(db, g).row.Some? then PutShelf(w, me, g, At(db, g), from, es, ss, at).1
    else
      match LoadLog(w, es)
      case Err(e) => Err(ChainFault(e))
      case Ok(log) => AdoptShelf(w, me, At(db, log.id), log, es, ss, at).1
  }

  function Stored(
      w: World, me: Peer, db: Db, g: GroupId, from: nat, es: seq<Entry>, ss: seq<Standing>, at: int): Db
  {
    if At(db, g).row.Some? then Do(w, me, db, DoPut(g, from, es, ss, at)) else Do(w, me, db, DoAdopt(es, ss, at))
  }

  function Ingested(
      w: World, me: Peer, username: Name, db: Db, g: GroupId, from: nat, es: seq<Entry>, ss: seq<Standing>, at: int)
      : Db
  {
    var outcome := Outcome(w, me, db, g, from, es, ss, at);
    var stored := Stored(w, me, db, g, from, es, ss, at);
    if outcome.Ok? then Settled(w, me, username, stored, g, outcome.value, at) else stored
  }

  /** A held group with this peer among its members that the peer has not named. */
  predicate Omits(db: Db, peer: Peer, named: set<GroupId>, g: GroupId) {
    At(db, g).row.Some? && g !in named && peer in At(db, g).members
  }

  /** The name by which the store lists a group. */
  function NameIn(db: Db, g: GroupId): Name {
    if At(db, g).row.Some? then At(db, g).row.value.name else []
  }

  /** No group after another of a later name. */
  ghost predicate ByName(listed: seq<GroupId>, db: Db) {
    forall i, j :: 0 <= i < j < |listed| && At(db, listed[i]).row.Some? && At(db, listed[j]).row.Some? ==>
      !LexLess(At(db, listed[j]).row.value.name, At(db, listed[i]).row.value.name)
  }

  ghost predicate IsListing(omitted: seq<GroupId>, db: Db, peer: Peer, named: set<GroupId>) {
    && (forall g :: g in omitted <==> Omits(db, peer, named, g))
    && (forall i, j :: 0 <= i < j < |omitted| ==> omitted[i] != omitted[j])
    && ByName(omitted, db)
  }

  ghost predicate ComesFirst(db: Db, s: set<GroupId>, g: GroupId) {
    g in s && forall h :: h in s ==> !LexLess(NameIn(db, h), NameIn(db, g))
  }

  lemma {:induction false} SomeComesFirst(db: Db, s: set<GroupId>)
    requires s != {}
    ensures exists g :: ComesFirst(db, s, g)
  {
    var x :| x in s;
    var rest := s - {x};
    if rest == {} {
      LexTrichotomy(NameIn(db, x), NameIn(db, x));
      assert s == {x};
      assert ComesFirst(db, s, x);
    } else {
      SomeComesFirst(db, rest);
      var g :| ComesFirst(db, rest, g);
      EarlierComesFirst(db, s, x, g);
    }
  }

  /** `listed` are those of `all` not in `todo`, each once and by name, and none of `todo` goes before. */
  ghost predicate ListedSoFar(db: Db, all: set<GroupId>, todo: set<GroupId>, listed: seq<GroupId>) {
    && todo <= all && ByName(listed, db)
    && (forall g :: g in listed <==> g in all - todo)
    && (forall i, j :: 0 <= i < j < |listed| ==> listed[i] != listed[j])
    && (forall i, h :: 0 <= i < |listed| && h in todo ==> !LexLess(NameIn(db, h), NameIn(db, listed[i])))
  }

  lemma ListedNext(db: Db, all: set<GroupId>, todo: set<GroupId>, listed: seq<GroupId>, g: GroupId)
    requires ListedSoFar(db, all, todo, listed) && ComesFirst(db, todo, g)
    ensures ListedSoFar(db, all, todo - {g}, listed + [g])
  {
    var next := listed + [g];
    forall i, j | 0 <= i < j < |next|
      ensures next[i] != next[j]
      ensures At(db, next[i]).row.Some? && At(db, next[j]).row.Some? ==>
        !LexLess(At(db, next[j]).row.value.name, At(db, next[i]).row.value.name)
    {
      if j == |listed| {
        assert next[i] in listed;
      } else {
        assert next[i] == listed[i] && next[j] == listed[j];
      }
    }
  }

  lemma EarlierComesFirst(db: Db, s: set<GroupId>, x: GroupId, g: GroupId)
    requires x in s && ComesFirst(db, s - {x}, g)
    ensures ComesFirst(db, s, if LexLess(NameIn(db, x), NameIn(db, g)) then x else g)
  {
    var (m, n) := (NameIn(db, x), NameIn(db, g));
    LexTrichotomy(m, n);
    forall h | h in s ensures !LexLess(NameIn(db, h), if LexLess(m, n) then m else n) {
      if h != x && LexLess(m, n) && LexLess(NameIn(db, h), m) {
        LexTransitive(NameIn(db, h), m, n);
      }
    }
  }

  /** A pending group, old enough, among whose members this node is not. */
  predicate Stale(db: Db, me: Peer, at: int, g: GroupId) {
    var shelf := At(db, g);
    && shelf.row.Some? && shelf.row.value.state == Pending
    && at - shelf.row.value.firstSeen >= PENDING_TTL
    && me !in shelf.members
  }

  function WithoutStale(db: Db, me: Peer, at: int): Db {
    map g | g in db && !Stale(db, me, at, g) :: db[g]
  }

  function Limited(heads: seq<GroupHead>): seq<GroupHead> {
    if |heads| <= MAX_HEADS_PER_ANSWER then heads else heads[..MAX_HEADS_PER_ANSWER]
  }

  function GroupsOf(heads: seq<GroupHead>): set<GroupId> {
    set h | h in heads :: h.group
  }

  predicate Awaits(s: Slots, peer: Peer, g: GroupId, from: nat) {
    g in s.inflight && s.inflight[g].peer == peer && s.inflight[g].from == from
  }

  /** What an event leads to before the queue is drained: outstanding and queued fetches, tables and
      fetches asked for. An unawaited answer leaves everything as it was. */
  ghost predicate Reaction(
      w: World, me: Peer, username: Name, at: int, event: GroupEvent, admitted: AdmittedPeers, clock: int,
      s: Slots, db: Db, s': Slots, db': Db, actions: seq<GroupAction>)
  {
    match event
    case Heads(peer, heads) =>
      && db' == db
      && (if !admitted.IsReady(peer) then s' == s && actions == []
          else exists omitted ::
            && IsListing(omitted, db, peer, GroupsOf(Limited(heads)))
            && var named := FetchingHeads(s, db, peer, Limited(heads), clock);
               var rest := FetchingGroups(named.0, db, peer, omitted, clock);
               s' == rest.0 && actions == named.1 + rest.1)
    case Entries(peer, g, from, es, ss) =>
      if !Awaits(s, peer, g, from) then s' == s && db' == db && actions == []
      else
        && db' == Ingested(w, me, username, db, g, from, es, ss, at)
        && var freed := s.(inflight := s.inflight - {g});
           var outcome := Outcome(w, me, db, g, from, es, ss, at);
           var asked :=
             if outcome.Err? && outcome.error.Gap?
             then Fetching(freed, peer, g, outcome.error.want, clock) else (freed, []);
           s' == asked.0 && actions == asked.1
    case Unavailable(peer, g) => db' == db && s' == Finishing(s, g, peer) && actions == []
    case FetchFailed(peer, g) => db' == db && s' == Finishing(s, g, peer) && actions == []
    case AskFailed(_) => db' == db && s' == s && actions == []
    case Tick(now, later) => db' == WithoutStale(db, me, later) && s' == Expiring(s, now, admitted) && actions == []
  }

  lemma ListingIsUnnamed(db: Db, peer: Peer, heads: seq<GroupHead>, omitted: seq<GroupId>)
    requires IsListing(omitted, db, peer, GroupsOf(heads))
    ensures AllOf(omitted) == Unnamed(db, peer, heads)
  {
    forall g ensures g in AllOf(omitted) <==> g in Unnamed(db, peer, heads) {
      assert g in GroupsOf(heads) <==> exists i :: 0 <= i < |heads| && heads[i].group == g;
      assert g in AllOf(omitted) <==> Omits(db, peer, GroupsOf(heads), g);
    }
  }

  /** An answer of heads asks for what it tells something new of, and for the groups that it omits. */
  lemma HeadsAndOmissionsAreAskedFor(
      s: Slots, db: Db, peer: Peer, heads: seq<GroupHead>, omitted: seq<GroupId>, clock: int)
    requires Bounded(s) && Busy(s) && IsListing(omitted, db, peer, GroupsOf(Limited(heads)))
    ensures var named := FetchingHeads(s, db, peer, Limited(heads), clock);
            var rest := FetchingGroups(named.0, db, peer, omitted, clock);
            && Bounded(rest.0) && Busy(rest.0) && Outstanding(rest.0, named.1 + rest.1)
            && Asks(s, rest.0, named.1 + rest.1, db, peer,
                    News(db, Counting(heads)) + Unnamed(db, peer, Counting(heads)), clock)
  {
    assert Limited(heads) == Counting(heads);
    var named := FetchingHeads(s, db, peer, Counting(heads), clock);
    var rest := FetchingGroups(named.0, db, peer, omitted, clock);
    FetchingHeadsKeeps(s, db, peer, Counting(heads), clock);
    HeadsAreHeeded(s, db, peer, Counting(heads), clock);
    FetchingGroupsKeeps(named.0, db, peer, omitted, clock);
    GroupsAreAskedFor(named.0, db, peer, omitted, clock);
    ListingIsUnnamed(db, peer, Counting(heads), omitted);
    AsksThen(s, named.0, named.1, News(db, Counting(heads)), rest.0, rest.1, AllOf(omitted), db, peer, clock);
    OutstandingLater(named.0, rest.0, named.1);
  }

  class GroupSync {
    const w: World
    const store: Groups
    const me: Peer
    const username: Name
    var inflight: map<GroupId, InFlight>
    var deferred: seq<(Peer, GroupId)>
    var nowAt: int

    constructor (w: World, store: Groups, key: Peer, username: Name)
      requires store.me == key && store.w == w
      ensures Valid() && this.store == store && Now() == Slots(map[], [])
    {
      this.w, this.store, this.me, this.username := w, store, key, username;
      inflight, deferred, nowAt := map[], [], 0;
    }

    function Now(): Slots
      reads this
    {
      Slots(inflight, deferred)
    }

    ghost predicate Valid()
      reads this
    {
      store.me == me && store.w == w && Bounded(Now()) && Busy(Now())
    }

    predicate Expected(peer: Peer, g: GroupId, from: nat)
      reads this
    {
      Awaits(Now(), peer, g, from)
    }

    /** What the event leads to, and then what the queue has slots for. Between events a free slot means an
        empty queue, no group is fetched or queued twice, and every fetch asked for is outstanding. */
    method On(event: GroupEvent, admitted: AdmittedPeers, clock: int) returns (actions: seq<GroupAction>)
      requires Valid()
      modifies this, store
      ensures Valid() && Outstanding(Now(), actions)
      ensures EncodingsDecode(w) && Sound(w, old(store.db)) ==> Sound(w, store.db)
      ensures exists mid, said ::
                && Reaction(w, me, username, old(nowAt), event, admitted, clock,
                            old(Now()), old(store.db), mid, store.db, said)
                && var drained := Draining(mid, store.db, admitted, clock);
                   Now() == drained.0 && actions == said + drained.1
      ensures nowAt == if event.Tick? then event.at else old(nowAt)
    {
      if event.Heads? && !admitted.IsReady(event.peer) {
        ghost var s, db := Now(), store.db;
        assert Reaction(w, me, username, nowAt, event, admitted, clock, s, db, s, db, []);
        return [];
      }
      var said := Dispatch(event, admitted, clock);
      ghost var mid := Now();
      assert Reaction(
          w, me, username, old(nowAt), event, admitted, clock, old(Now()), old(store.db), mid, store.db, said);
      DrainingKeeps(mid, store.db, admitted, clock);
      var more := DrainDeferred(admitted, clock);
      OutstandingLater(mid, Now(), said);
      actions := said + more;
    }

    method Dispatch(event: GroupEvent, admitted: AdmittedPeers, clock: int) returns (actions: seq<GroupAction>)
      requires Valid()
      modifies this, store
      ensures store.me == me && store.w == w && Bounded(Now()) && Outstanding(Now(), actions)
      ensures EncodingsDecode(w) && Sound(w, old(store.db)) ==> Sound(w, store.db)
      ensures Reaction(w, me, username, old(nowAt), event, admitted, clock,
                       old(Now()), old(store.db), Now(), store.db, actions)
      ensures nowAt == if event.Tick? then event.at else old(nowAt)
    {
      actions := [];
      if event.Heads? {
        if admitted.IsReady(event.peer) {
          actions := OnHeads(event.peer, event.heads, clock);
        }
      } else if event.Entries? {
        actions := OnEntries(event.peer, event.group, event.from, event.entries, event.standings, clock);
      } else if event.Unavailable? || event.FetchFailed? {
        Finish(event.group, event.peer);
      } else if event.Tick? {
        OnTick(event.now, event.at, admitted);
      }
    }

    method OnHeads(peer: Peer, offered: seq<GroupHead>, clock: int) returns (actions: seq<GroupAction>)
      requires Valid()
      modifies this
      ensures nowAt == old(nowAt)
      ensures Valid() && Outstanding(Now(), actions)
      ensures exists omitted ::
                && IsListing(omitted, store.db, peer, GroupsOf(Limited(offered)))
                && var named := FetchingHeads(old(Now()), store.db, peer, Limited(offered), clock);
                   var rest := FetchingGroups(named.0, store.db, peer, omitted, clock);
                   Now() == rest.0 && actions == named.1 + rest.1
      ensures Asks(old(Now()), Now(), actions, store.db, peer,
                   News(store.db, Counting(offered)) + Unnamed(store.db, peer, Counting(offered)), clock)
    {
      var heads := Limited(offered);
      actions := FetchWorthwhile(peer, heads, clock);
      var omitted := SilentlyOmitted(peer, GroupsOf(heads));
      HeadsAndOmissionsAreAskedFor(old(Now()), store.db, peer, offered, omitted, clock);
      var asked := FetchAll(peer, omitted, clock);
      actions := actions + asked;
    }

    method FetchWorthwhile(peer: Peer, heads: seq<GroupHead>, clock: int) returns (actions: seq<GroupAction>)
      modifies this
      ensures var r := FetchingHeads(old(Now()), store.db, peer, heads, clock);
              Now() == r.0 && actions == r.1 && nowAt == old(nowAt)
    {
      actions := [];
      ghost var goal := FetchingHeads(Now(), store.db, peer, heads, clock);
      assert heads[0..] == heads;
      for i := 0 to |heads|
        invariant nowAt == old(nowAt)
        invariant var rest := FetchingHeads(Now(), store.db, peer, heads[i..], clock);
                  goal.0 == rest.0 && goal.1 == actions + rest.1
      {
        var head := heads[i];
        assert heads[i..][1..] == heads[i + 1..];
        if WorthFetching(At(store.db, head.group).row, head) {
          var asked := FetchNow(peer, head.group, HeadSeqOf(store.db, head.group), clock);
          actions := actions + asked;
        }
      }
    }

    method FetchAll(peer: Peer, groups: seq<GroupId>, clock: int) returns (actions: seq<GroupAction>)
      modifies this
      ensures var r := FetchingGroups(old(Now()), store.db, peer, groups, clock);
              Now() == r.0 && actions == r.1 && nowAt == old(nowAt)
    {
      actions := [];
      ghost var goal := FetchingGroups(Now(), store.db, peer, groups, clock);
      assert groups[0..] == groups;
      for i := 0 to |groups|
        invariant nowAt == old(nowAt)
        invariant var rest := FetchingGroups(Now(), store.db, peer, groups[i..], clock);
                  goal.0 == rest.0 && goal.1 == actions + rest.1
      {
        assert groups[i..][1..] == groups[i + 1..];
        var asked := FetchNow(peer, groups[i], HeadSeqOf(store.db, groups[i]), clock);
        actions := actions + asked;
      }
    }

    /** Lists every omitted group once, by name as the store lists them. */
    method SilentlyOmitted(peer: Peer, named: set<GroupId>) returns (omitted: seq<GroupId>)
      ensures IsListing(omitted, store.db, peer, named)
    {
      omitted := [];
      var db := store.db;
      var all := set g | g in db && Omits(db, peer, named, g);
      var todo := all;
      while todo != {}
        invariant ListedSoFar(db, all, todo, omitted)
        decreases |todo|
      {
        SomeComesFirst(db, todo);
        var g :| g in todo && forall h :: h in todo ==> !LexLess(NameIn(db, h), NameIn(db, g));
        ListedNext(db, all, todo, omitted, g);
        omitted := omitted + [g];
        todo := todo - {g};
      }
    }

    method OnEntries(peer: Peer, g: GroupId, from: nat, es: seq<Entry>, ss: seq<Standing>, clock: int)
      returns (actions: seq<GroupAction>)
      requires Valid()
      modifies this, store
      ensures store.me == me && store.w == w && Bounded(Now()) && Outstanding(Now(), actions) && nowAt == old(nowAt)
      ensures !old(Expected(peer, g, from)) ==> Now() == old(Now()) && store.db == old(store.db) && actions == []
      ensures old(Expected(peer, g, from)) ==>
                && store.db == Ingested(w, me, username, old(store.db), g, from, es, ss, old(nowAt))
                && var freed := old(Now()).(inflight := old(inflight) - {g});
                   var outcome := Outcome(w, me, old(store.db), g, from, es, ss, old(nowAt));
                   var asked :=
                     if outcome.Err? && outcome.error.Gap?
                     then Fetching(freed, peer, g, outcome.error.want, clock) else (freed, []);
                   Now() == asked.0 && actions == asked.1
      ensures EncodingsDecode(w) && Sound(w, old(store.db)) ==> Sound(w, store.db)
    {
      actions := [];
      if !Expected(peer, g, from) {
        return;
      }
      FreeingKeeps(Now(), g);
      inflight := inflight - {g};
      ghost var freed := Now();

      var outcome;
      var at := nowAt;
      if At(store.db, g).row.Some? {
        outcome := store.Put(g, from, es, ss, at);
      } else {
        outcome := store.Adopt(es, ss, at);
      }
      StoringIsSound(w, me, old(store.db), g, from, es, ss, at);
      if outcome.Err? {
        if outcome.error.Gap? {
          FetchingKeeps(freed, peer, g, outcome.error.want, clock);
          actions := FetchNow(peer, g, outcome.error.want, clock);
        }
        return;
      }
      SettlingIsSound(w, me, username, store.db, g, outcome.value, at);
      AnswerInvitation(g, at);
      Ratify(g, outcome.value, at);
    }

    method AnswerInvitation(g: GroupId, at: int)
      requires store.me == me && store.w == w
      modifies store
      ensures store.db == InvitationAnswered(w, me, username, old(store.db), g, at)
    {
      var shelf := At(store.db, g);
      var pending := shelf.row.Some? && shelf.row.value.state == Pending;
      var named := me in shelf.members;
      var spoken := me in shelf.standings;
      if !pending || !named || spoken {
        return;
      }
      SayingIsDoing(w, me, store.db, g, Unanswered, username, at);
      var _ := store.AuthorPosition(me, g, Unanswered, username, at);
    }

    /** For the admin: one removal authored for each departure reported, as far as the store takes them. */
    method Ratify(g: GroupId, applied: Applied, at: int)
      requires store.me == me && store.w == w
      modifies store
      ensures store.db ==
              if Administers(me, old(store.db), g)
              then Ratified(w, me, old(store.db), g, applied.departed, at) else old(store.db)
    {
      if applied.departed == [] || !Administers(me, store.db, g) {
        return;
      }
      var departed := applied.departed;
      ghost var goal := Ratified(w, me, store.db, g, departed, at);
      for i := 0 to |departed|
        invariant Ratified(w, me, store.db, g, departed[i..], at) == goal
      {
        assert departed[i..][1..] == departed[i + 1..];
        if departed[i] != me {
          var _ := store.Author(me, g, Remove(Base58(departed[i])), at);
        }
      }
    }

    method OnTick(now: int, at: int, admitted: AdmittedPeers)
      requires Valid()
      modifies this, store
      ensures store.me == me && store.w == w && Bounded(Now())
      ensures Now() == Expiring(old(Now()), now, admitted) && nowAt == at
      ensures store.db == WithoutStale(old(store.db), me, at)
      ensures EncodingsDecode(w) && Sound(w, old(store.db)) ==> Sound(w, store.db)
    {
      nowAt := at;
      ExpiringKeeps(Now(), now, admitted);
      DropExpired(now, admitted);
      ForgettingStaleIsSound(w, store.db, me, at);
      ExpirePending(at);
    }

    /** Afterwards every fetch is in time and of a ready peer, and every queued one of an admitted peer. */
    method DropExpired(now: int, admitted: AdmittedPeers)
      modifies this
      ensures Now() == Expiring(old(Now()), now, admitted) && nowAt == old(nowAt)
    {
      deferred := KeepAdmitted(deferred, admitted);
      inflight :=
        map g | g in inflight && now < inflight[g].deadline && admitted.IsReady(inflight[g].peer) :: inflight[g];
    }

    /** Exactly the stale groups are gone afterwards. */
    method ExpirePending(at: int)
      modifies store
      ensures store.db == WithoutStale(old(store.db), me, at)
    {
      var was := store.db;
      var todo := was.Keys;
      while todo != {}
        invariant todo <= was.Keys
        invariant store.db == map g | g in was && (g in todo || !Stale(was, me, at, g)) :: was[g]
        decreases |todo|
      {
        var g :| g in todo;
        if Stale(was, me, at, g) {
          store.Forget(g);
        }
        todo := todo - {g};
      }
    }

    /** The fetching step on the fields. */
    method FetchNow(peer: Peer, g: GroupId, from: nat, clock: int) returns (asked: seq<GroupAction>)
      modifies this
      ensures var r := Fetching(old(Now()), peer, g, from, clock);
              Now() == r.0 && asked == r.1 && nowAt == old(nowAt)
    {
      if g in inflight {
        return [];
      }
      if |inflight| >= MAX_INFLIGHT {
        Defer(peer, g);
        return [];
      }
      inflight := inflight[g := InFlight(peer, from, clock + FETCH_TIMEOUT)];
      return [Fetch(peer, g, from)];
    }

    method Defer(peer: Peer, g: GroupId)
      modifies this
      ensures Now() == Deferring(old(Now()), peer, g) && nowAt == old(nowAt)
    {
      if Queued(Now(), g) {
        return;
      }
      if |deferred| >= MAX_DEFERRED {
        return;
      }
      deferred := deferred + [(peer, g)];
    }

    /** The queue's front goes out until the slots are full or the queue is empty. */
    method DrainDeferred(admitted: AdmittedPeers, clock: int) returns (actions: seq<GroupAction>)
      modifies this
      ensures var r := Draining(old(Now()), store.db, admitted, clock);
              Now() == r.0 && actions == r.1 && nowAt == old(nowAt)
    {
      actions := [];
      ghost var goal := Draining(Now(), store.db, admitted, clock);
      while |inflight| < MAX_INFLIGHT && deferred != []
        invariant nowAt == old(nowAt)
        invariant var rest := Draining(Now(), store.db, admitted, clock);
                  goal.0 == rest.0 && goal.1 == actions + rest.1
        decreases |deferred|
      {
        var (peer, g) := deferred[0];
        deferred := deferred[1..];
        if !admitted.IsAdmitted(peer) || g in inflight {
          continue;
        }
        var asked := FetchNow(peer, g, HeadSeqOf(store.db, g), clock);
        actions := actions + asked;
      }
    }

    method Finish(g: GroupId, peer: Peer)
      requires Valid()
      modifies this
      ensures Now() == Finishing(old(Now()), g, peer) && nowAt == old(nowAt)
      ensures Bounded(Now())
    {
      if g in inflight && inflight[g].peer == peer {
        FreeingKeeps(Now(), g);
        inflight := inflight - {g};
      }
    }
  }

  /** The queued reads of peers still admitted, in order. */
  method KeepAdmitted(queue: seq<(Peer, GroupId)>, admitted: AdmittedPeers) returns (kept: seq<(Peer, GroupId)>)
    ensures kept == Kept(queue, admitted)
  {
    kept := [];
    assert queue[0..] == queue;
    for i := 0 to |queue|
      invariant kept + Kept(queue[i..], admitted) == Kept(queue, admitted)
    {
      assert queue[i..][1..] == queue[i + 1..];
      if admitted.IsAdmitted(queue[i].0) {
        kept := kept + [queue[i]];
      }
    }
  }

  lemma FreeingKeeps(s: Slots, g: GroupId)
    requires Bounded(s) && g in s.inflight
    ensures Bounded(s.(inflight := s.inflight - {g})) && !Queued(s, g)
  {
    SubmapIsSmaller(s.inflight - {g}, s.inflight);
  }

  // ---- the tables stay sound ----

  lemma StoringIsSound(
      w: World, me: Peer, db: Db, g: GroupId, from: nat, es: seq<Entry>, ss: seq<Standing>, at: int)
    ensures EncodingsDecode(w) && Sound(w, db) ==> Sound(w, Stored(w, me, db, g, from, es, ss, at))
  {
    if EncodingsDecode(w) && Sound(w, db) {
      DoKeepsSound(w, me, db, if At(db, g).row.Some? then DoPut(g, from, es, ss, at) else DoAdopt(es, ss, at));
    }
  }

  lemma {:induction false} RatifyingIsSound(w: World, me: Peer, db: Db, g: GroupId, departed: seq<Peer>, at: int)
    requires EncodingsDecode(w) && Sound(w, db)
    ensures Sound(w, Ratified(w, me, db, g, departed, at))
    decreases |departed|
  {
    if departed != [] {
      DoKeepsSound(w, me, db, DoAuthor(g, Remove(Base58(departed[0])), at));
      RatifyingIsSound(
        w, me,
        if departed[0] == me then db else Do(w, me, db, DoAuthor(g, Remove(Base58(departed[0])), at)),
        g, departed[1..], at);
    }
  }

  lemma SettlingIsSound(w: World, me: Peer, username: Name, db: Db, g: GroupId, applied: Applied, at: int)
    ensures EncodingsDecode(w) && Sound(w, db) ==> Sound(w, Settled(w, me, username, db, g, applied, at))
  {
    if EncodingsDecode(w) && Sound(w, db) {
      DoKeepsSound(w, me, db, DoSay(g, Unanswered, username, at));
      RatifyingIsSound(w, me, InvitationAnswered(w, me, username, db, g, at), g, applied.departed, at);
    }
  }

  lemma ForgettingStaleIsSound(w: World, db: Db, me: Peer, at: int)
    ensures Sound(w, db) ==> Sound(w, WithoutStale(db, me, at))
  {
    if Sound(w, db) {
      var after := WithoutStale(db, me, at);
      assert forall g :: SoundShelf(w, g, At(db, g));
      assert forall g {:trigger At(after, g)} :: At(after, g) == At(db, g) || At(after, g) == BARE;
    }
  }

  // ---- a departure the admin hears of becomes a removal ----

  /** The removal the admin would sign next in a group with these rows. */
  function RemovalBody(g: GroupId, shelf: Shelf, p: Peer, at: int): EntryBody
    requires shelf.row.Some?
  {
    EntryBody(g, shelf.row.value.headSeq, shelf.row.value.headHash, at, Remove(Base58(p)))
  }

  /** The key can sign this one body: it can be encoded, what is signed fits, and the signature holds. */
  predicate Signable(w: World, key: Peer, body: EntryBody) {
    var signed := SignEntry(w, key, body);
    signed.Ok? && w.Verifies(key, signed.value.body, signed.value.signature)
  }

  /** The admin's removal of a member is stored exactly when the admin can sign it, and takes that member
      and nobody else out. */
  lemma RemovalIsAuthored(w: World, g: GroupId, shelf: Shelf, log: Log, p: Peer, at: int)
    requires EncodingsDecode(w) && Stores(w, g, shelf, log) && Cached(w, shelf, log)
    requires p in log.Members() && p != log.admin
    ensures var (after, r) := AuthorShelf(w, g, shelf, log.admin, Remove(Base58(p)), at);
            && (r.Ok? <==> Signable(w, log.admin, RemovalBody(g, shelf, p, at)))
            && after.members.Keys == (if r.Ok? then shelf.members.Keys - {p} else shelf.members.Keys)
            && after.row.Some? && after.row.value.admin == log.admin
  {
    var op := Remove(Base58(p));
    var body := RemovalBody(g, shelf, p, at);
    StoredLogIsRead(w, g, shelf, log);
    var signed := SignEntry(w, log.admin, body);
    if signed.Ok? {
      var entry := signed.value;
      assert w.EntryBodyOf(entry) == Some(body);
      if Signable(w, log.admin, body) {
        SignedRemovalIsStored(w, g, shelf, log, p, at, entry);
      } else {
        assert CheckNext(w, log, entry).Err?;
        assert [entry][0] == entry;
      }
    }
  }

  lemma SignedRemovalIsStored(w: World, g: GroupId, shelf: Shelf, log: Log, p: Peer, at: int, entry: Entry)
    requires EncodingsDecode(w) && Stores(w, g, shelf, log) && Cached(w, shelf, log)
    requires p in log.Members() && p != log.admin
    requires SignEntry(w, log.admin, RemovalBody(g, shelf, p, at)) == Ok(entry)
    requires w.EntryBodyOf(entry) == Some(RemovalBody(g, shelf, p, at))
    requires w.Verifies(log.admin, entry.body, entry.signature)
    ensures var (after, r) := AuthorShelf(w, g, shelf, log.admin, Remove(Base58(p)), at);
            && r.Ok? && after.members.Keys == shelf.members.Keys - {p}
            && after.row.Some? && after.row.value.admin == log.admin
  {
    var op := Remove(Base58(p));
    StoredLogIsRead(w, g, shelf, log);
    var v := Verified(entry, RemovalBody(g, shelf, p, at), entry.Hash());
    assert CheckNext(w, log, entry) == Ok(v);
    var next := log.(entries := log.entries + [v]);
    assert ExtendLog(w, log, [entry]) == Ok(next) by {
      assert [entry][1..] == [];
    }
    assert PlanAuthor(w, g, shelf, log.admin, op, at) == Ok(AuthorPlan(|log.entries|, entry, next));
    PlanAuthorIsSound(w, g, shelf, log, log.admin, op, at);
    CommitAuthorMovesHead(w, g, shelf, log, AuthorPlan(|log.entries|, entry, next), log, at);
    assert next.entries[..|log.entries|] == log.entries;
    assert next.Members() == log.Members() - {p};
  }

  /** Of these peers, the members whose removal the admin could sign when their turn came. */
  function RatifiedOut(w: World, me: Peer, db: Db, g: GroupId, departed: seq<Peer>, at: int): set<Peer>
    decreases |departed|
  {
    if departed == [] then {}
    else
      var (p, shelf) := (departed[0], At(db, g));
      var next := if p == me then db else Do(w, me, db, DoAuthor(g, Remove(Base58(p)), at));
      var out :=
        if p != me && p in shelf.members && shelf.row.Some? && Signable(w, me, RemovalBody(g, shelf, p, at))
        then {p} else {};
      out + RatifiedOut(w, me, next, g, departed[1..], at)
  }

  /** After the admin has taken in an answer, the members are those before it less exactly the reported
      peers whose removal it could sign. */
  lemma {:induction false} DeparturesBecomeRemovals(
      w: World, me: Peer, db: Db, g: GroupId, departed: seq<Peer>, at: int)
    requires EncodingsDecode(w) && Sound(w, db) && Administers(me, db, g)
    ensures var after := Ratified(w, me, db, g, departed, at);
            && Administers(me, after, g)
            && At(after, g).members.Keys == At(db, g).members.Keys - RatifiedOut(w, me, db, g, departed, at)
    decreases |departed|
  {
    if departed != [] {
      var p := departed[0];
      if p == me {
        DeparturesBecomeRemovals(w, me, db, g, departed[1..], at);
      } else {
        OneDepartureBecomesARemoval(w, me, db, g, p, at);
        DeparturesBecomeRemovals(w, me, Do(w, me, db, DoAuthor(g, Remove(Base58(p)), at)), g, departed[1..], at);
      }
    }
  }

  lemma OneDepartureBecomesARemoval(w: World, me: Peer, db: Db, g: GroupId, p: Peer, at: int)
    requires EncodingsDecode(w) && Sound(w, db) && Administers(me, db, g) && p != me
    ensures var next := Do(w, me, db, DoAuthor(g, Remove(Base58(p)), at));
            var shelf := At(db, g);
            var out := p in shelf.members && Signable(w, me, RemovalBody(g, shelf, p, at));
            && Sound(w, next) && Administers(me, next, g)
            && At(next, g).members.Keys == if out then shelf.members.Keys - {p} else shelf.members.Keys
  {
    var shelf := At(db, g);
    assert SoundShelf(w, g, shelf);
    DoKeepsSound(w, me, db, DoAuthor(g, Remove(Base58(p)), at));
    var log :| Stores(w, g, shelf, log) && Cached(w, shelf, log);
    if p in log.Members() {
      RemovalIsAuthored(w, g, shelf, log, p, at);
    } else {
      RemovingANonMember(w, g, shelf, log, p, at);
    }
  }

  lemma RemovingANonMember(w: World, g: GroupId, shelf: Shelf, log: Log, p: Peer, at: int)
    requires EncodingsDecode(w) && Stores(w, g, shelf, log) && p !in log.Members()
    ensures AuthorShelf(w, g, shelf, log.admin, Remove(Base58(p)), at).1.Err?
  {
    StoredLogIsRead(w, g, shelf, log);
    var signed := SignEntry(w, log.admin, RemovalBody(g, shelf, p, at));
    if signed.Ok? {
      assert w.EntryBodyOf(signed.value) == Some(RemovalBody(g, shelf, p, at));
      assert CheckNext(w, log, signed.value).Err?;
      assert [signed.value][0] == signed.value;
    }
  }
}
