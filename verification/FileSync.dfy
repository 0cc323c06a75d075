/** The catalogue sync machine: which peers' logs it reads, and when it calls a round settled
    (crates/ac-files/src/sync.rs). */
module FileSyncs {
  import opened Base
  import opened Wire
  import opened FileReads
  import opened FileAsking
  import Slots

  datatype FileEvent =
    | Heads(peer: Peer, heads: seq<FileHead>)
    | Changes(peer: Peer, group: GroupId, after: nat, page: Page)
    | Unavailable(peer: Peer, group: GroupId)
    | RequestFailed(peer: Peer, about: Option<GroupId>)
    | Tick(now: int, at: int)

  /** What the machine looks up while it reacts: who is admitted, which groups are shared with whom,
      which groups have a directory to put files in, and the time. */
  datatype Around = Around(admitted: Slots.AdmittedPeers, sharing: set<Pair>, named: set<GroupId>, clock: int)

  /** A page merged, if it is the one waited for and there is a directory for its files. */
  function Changed<C>(
      lib: Library<C>, s: Reads, files: Files<C>, dirs: set<GroupId>, pair: Pair, at: nat, page: Page, around: Around)
      : (Reads, Files<C>, seq<FileAction>)
  {
    if pair !in s.inflight || s.inflight[pair].after != at then (s, files, [])
    else if pair.1 !in dirs + around.named then (s.(inflight := s.inflight - {pair}), files, [])
    else
      var retried := s.inflight[pair].retried;
      var next := FilesAfter(lib, files, pair, page, retried);
      var r := Answering(s, pair, FollowUp(next.DigestOf(lib, pair.1), page, retried), around.clock);
      (r.0, next, r.1)
  }

  /** The directories resolved so far: one more when an awaited page is of a named group. */
  function DirsAfter(s: Reads, dirs: set<GroupId>, event: FileEvent, around: Around): set<GroupId> {
    if event.Changes? && (event.peer, event.group) in s.inflight
       && s.inflight[(event.peer, event.group)].after == event.after
    then dirs + ({event.group} * around.named) else dirs
  }

  /** What one event does, before the queue is drained. */
  function Dispatched<C>(
      lib: Library<C>, s: Reads, files: Files<C>, dirs: set<GroupId>, event: FileEvent, around: Around)
      : (Reads, Files<C>, seq<FileAction>)
  {
    match event
    case Heads(peer, heads) =>
      if !around.admitted.IsReady(peer) then (s, files, [])
      else
        var r := NamingHeads(s, lib, files, peer, Taken(heads, MAX_HEADS_PER_ANSWER), around.sharing, around.clock);
        (r.0, files, r.1)
    case Changes(peer, g, after, page) =>
      Changed(lib, s, files, dirs, (peer, g), after, page, around)
    case Unavailable(peer, g) => (s.(inflight := s.inflight - {(peer, g)}), files, [Settled(peer, g)])
    case RequestFailed(peer, g) => (if g.Some? then s.(inflight := s.inflight - {(peer, g.value)}) else s, files, [])
    case Tick(now, _) => (Expiring(s, now, around.admitted), files, [])
  }

  class FileSync<C(!new)> {
    const lib: Library<C>
    var files: Files<C>
    var dirs: set<GroupId>
    var inflight: map<Pair, InFlight>
    var deferred: seq<Pair>
    var nowAt: int

    constructor (lib: Library<C>, files: Files<C>)
      ensures Valid() && this.files == files && Now() == Reads(map[], []) && dirs == {}
    {
      this.lib, this.files, dirs, inflight, deferred, nowAt := lib, files, {}, map[], [], 0;
    }

    function Now(): Reads
      reads this
    {
      Reads(inflight, deferred)
    }

    ghost predicate Valid()
      reads this
    {
      Bounded(Now()) && Busy(Now())
    }

    /** Between events a free slot means an empty queue, a pair is never both read and queued nor queued
        twice, and every page asked for is the one its read waits for. */
    method On(event: FileEvent, around: Around) returns (actions: seq<FileAction>)
      requires Valid()
      modifies this
      ensures Valid() && Outstanding(Now(), actions)
      ensures var (s, next, said) := Dispatched(lib, old(Now()), old(files), old(dirs), event, around);
              var drained := Draining(s, files, around.admitted, around.clock);
              files == next && Now() == drained.0 && actions == said + drained.1
      ensures event.Tick? ==> nowAt == event.at
      ensures dirs == DirsAfter(old(Now()), old(dirs), event, around)
    {
      DispatchingKeeps(lib, Now(), files, dirs, event, around);
      actions := Dispatch(event, around);
      ghost var mid := Now();
      DrainingKeeps(mid, files, around.admitted, around.clock);
      var more := DrainDeferred(around.admitted, around.clock);
      OutstandingLater(mid, Now(), actions);
      actions := actions + more;
    }

    method Dispatch(event: FileEvent, around: Around) returns (actions: seq<FileAction>)
      modifies this
      ensures (Now(), files, actions) == Dispatched(lib, old(Now()), old(files), old(dirs), event, around)
      ensures event.Tick? ==> nowAt == event.at
      ensures dirs == DirsAfter(old(Now()), old(dirs), event, around)
    {
      actions := [];
      match event {
        case Heads(peer, heads) =>
          if around.admitted.IsReady(peer) {
            actions := OnHeads(peer, heads, around);
          }
        case Changes(peer, g, after, page) =>
          actions := OnChanges(peer, g, after, page, around);
        case Unavailable(peer, g) =>
          inflight := inflight - {(peer, g)};
          actions := [Settled(peer, g)];
        case RequestFailed(peer, g) =>
          if g.Some? {
            inflight := inflight - {(peer, g.value)};
          }
        case Tick(now, at) =>
          nowAt := at;
          deferred := KeepAdmitted(deferred, around.admitted);
          inflight :=
            map pair | pair in inflight && now < inflight[pair].deadline && around.admitted.IsReady(pair.0)
              :: inflight[pair];
      }
    }

    method OnHeads(peer: Peer, offered: seq<FileHead>, around: Around) returns (actions: seq<FileAction>)
      modifies `inflight, `deferred
      ensures var r := NamingHeads(old(Now()), lib, files, peer, Taken(offered, MAX_HEADS_PER_ANSWER),
                                   around.sharing, around.clock);
              Now() == r.0 && actions == r.1
      ensures old(Valid()) ==>
                var heads := if |offered| <= 128 then offered else offered[..128];
                Heard(old(Now()), Now(), actions, files, peer, Agreeing(lib, files, peer, around.sharing, heads),
                      Differing(lib, files, peer, around.sharing, heads), around.clock)
    {
      var heads := Taken(offered, MAX_HEADS_PER_ANSWER);
      if Valid() {
        HeadsAreHeard(Now(), lib, files, peer, heads, around.sharing, around.clock);
      }
      actions := SettleOrRead(peer, heads, around);
    }

    method SettleOrRead(peer: Peer, heads: seq<FileHead>, around: Around) returns (actions: seq<FileAction>)
      modifies `inflight, `deferred
      ensures var r := NamingHeads(old(Now()), lib, files, peer, heads, around.sharing, around.clock);
              Now() == r.0 && actions == r.1
    {
      actions := [];
      ghost var goal := NamingHeads(Now(), lib, files, peer, heads, around.sharing, around.clock);
      assert heads[0..] == heads;
      for i := 0 to |heads|
        invariant var rest := NamingHeads(Now(), lib, files, peer, heads[i..], around.sharing, around.clock);
                  goal.0 == rest.0 && goal.1 == actions + rest.1
      {
        assert heads[i..][1..] == heads[i + 1..];
        var pair := (peer, heads[i].group);
        var said: seq<FileAction> := [];
        if pair in around.sharing {
          if files.DigestOf(lib, pair.1) == heads[i].digest {
            said := [Settled(peer, pair.1)];
          } else {
            said := Read(pair, files.Cursor(pair), false, around.clock);
          }
        }
        actions := actions + said;
      }
    }

    /** Merge the page this node is waiting for, and go on from where it leads. */
    method OnChanges(peer: Peer, g: GroupId, after: nat, page: Page, around: Around) returns (actions: seq<FileAction>)
      modifies this
      ensures (Now(), files, actions)
              == Changed(lib, old(Now()), old(files), old(dirs), (peer, g), after, page, around)
      ensures dirs == DirsAfter(old(Now()), old(dirs), Changes(peer, g, after, page), around)
    {
      var pair := (peer, g);
      if pair !in inflight || inflight[pair].after != after {
        return [];
      }
      var retried := inflight[pair].retried;
      inflight := inflight - {pair};
      if g !in dirs {
        if g !in around.named {
          return [];
        }
        dirs := dirs + {g};
      }
      actions := MergePage(pair, page, retried, around.clock);
    }

    method MergePage(pair: Pair, page: Page, retried: bool, clock: int) returns (actions: seq<FileAction>)
      modifies `files, `inflight, `deferred
      ensures files == FilesAfter(lib, old(files), pair, page, retried)
      ensures var follow := FollowUp(files.DigestOf(lib, pair.1), page, retried);
              if follow.Some? then (Now(), actions) == Reading(old(Now()), pair, follow.value.0, follow.value.1, clock)
              else Now() == old(Now()) && actions == [Settled(pair.0, pair.1)]
    {
      var entries := Taken(page.entries, MAX_ENTRIES_PER_RESPONSE);
      var merged := MergeEntries(lib, files.CatalogueOf(lib, pair.1), entries);
      files := files.(catalogues := files.catalogues[pair.1 := merged]).Moved(pair, page.next);
      if page.more {
        actions := Read(pair, page.next, retried, clock);
        return;
      }
      if lib.digest(merged) != page.digest && !retried {
        files := files.Moved(pair, 0);
        actions := Read(pair, 0, true, clock);
        return;
      }
      return [Settled(pair.0, pair.1)];
    }

    /** The reading step on the fields: nothing for a pair under way, the queue when all slots are taken. */
    method Read(pair: Pair, after: nat, retried: bool, clock: int) returns (asked: seq<FileAction>)
      modifies `inflight, `deferred
      ensures (Now(), asked) == Reading(old(Now()), pair, after, retried, clock)
    {
      if pair in inflight {
        return [];
      }
      if |inflight| >= MAX_INFLIGHT {
        Defer(pair);
        return [];
      }
      inflight := inflight[pair := InFlight(after, retried, clock + REQUEST_TIMEOUT)];
      return [FetchChanges(pair.0, pair.1, after)];
    }

    method Defer(pair: Pair)
      modifies `deferred
      ensures Now() == Deferring(old(Now()), pair)
    {
      if pair in deferred || |deferred| >= MAX_DEFERRED {
        return;
      }
      deferred := deferred + [pair];
    }

    /** The queue's front goes out until the slots are full or the queue is empty. */
    method DrainDeferred(admitted: Slots.AdmittedPeers, clock: int) returns (actions: seq<FileAction>)
      modifies `inflight, `deferred
      ensures var r := Draining(old(Now()), files, admitted, clock);
              Now() == r.0 && actions == r.1
    {
      actions := [];
      ghost var goal := Draining(Now(), files, admitted, clock);
      while |inflight| < MAX_INFLIGHT && deferred != []
        invariant var rest := Draining(Now(), files, admitted, clock);
                  goal.0 == rest.0 && goal.1 == actions + rest.1
        decreases |deferred|
      {
        var pair := deferred[0];
        deferred := deferred[1..];
        if !admitted.IsAdmitted(pair.0) {
          continue;
        }
        var asked := Read(pair, files.Cursor(pair), false, clock);
        actions := actions + asked;
      }
    }
  }

  method KeepAdmitted(queue: seq<Pair>, admitted: Slots.AdmittedPeers) returns (kept: seq<Pair>)
    ensures kept == Slots.Kept(queue, admitted)
  {
    kept := [];
    assert queue[0..] == queue;
    for i := 0 to |queue|
      invariant kept + Slots.Kept(queue[i..], admitted) == Slots.Kept(queue, admitted)
    {
      assert queue[i..][1..] == queue[i + 1..];
      if admitted.IsAdmitted(queue[i].0) {
        kept := kept + [queue[i]];
      }
    }
  }

  method MergeEntries<C>(lib: Library<C>, c: C, entries: seq<Bytes>) returns (merged: C)
    ensures merged == MergedAll(lib, c, entries)
  {
    merged := c;
    assert entries[0..] == entries;
    for i := 0 to |entries|
      invariant MergedAll(lib, merged, entries[i..]) == MergedAll(lib, c, entries)
    {
      assert entries[i..][1..] == entries[i + 1..];
      merged := lib.merge(merged, entries[i]);
    }
  }

  // ---- what an event keeps ----

  lemma DispatchingKeeps<C>(
      lib: Library<C>, s: Reads, files: Files<C>, dirs: set<GroupId>, event: FileEvent, around: Around)
    requires Bounded(s) && Busy(s)
    ensures var r := Dispatched(lib, s, files, dirs, event, around);
            Bounded(r.0) && Outstanding(r.0, r.2)
  {
    if event.Heads? {
      NamingHeadsKeeps(
        s, lib, files, event.peer, Taken(event.heads, MAX_HEADS_PER_ANSWER), around.sharing, around.clock);
    } else if event.Changes? {
      AnyAnswerKeeps(lib, s, files, dirs, (event.peer, event.group), event.after, event.page, around);
    } else if event.Unavailable? {
      FreeingKeeps(s, (event.peer, event.group));
    } else if event.RequestFailed? && event.about.Some? {
      FreeingKeeps(s, (event.peer, event.about.value));
    } else if event.Tick? {
      ExpiringKeeps(s, event.now, around.admitted);
    }
  }

  lemma AnyAnswerKeeps<C>(
      lib: Library<C>, s: Reads, files: Files<C>, dirs: set<GroupId>, pair: Pair, at: nat, page: Page, around: Around)
    requires Bounded(s) && Busy(s)
    ensures var r := Changed(lib, s, files, dirs, pair, at, page, around);
            Bounded(r.0) && Outstanding(r.0, r.2)
  {
    FreeingKeeps(s, pair);
    if pair in s.inflight && s.inflight[pair].after == at {
      var retried := s.inflight[pair].retried;
      var next := FilesAfter(lib, files, pair, page, retried);
      AnsweringKeeps(s, pair, FollowUp(next.DigestOf(lib, pair.1), page, retried), around.clock);
    }
  }

  /** A page that was waited for has its follow-up out at once, as that page's follow-up, even with a
      full queue behind it; and if it settles the round, no read of that pair is left anywhere. */
  lemma AnswersContinueOrSettle<C>(
      lib: Library<C>, s: Reads, files: Files<C>, dirs: set<GroupId>, pair: Pair, page: Page, around: Around)
    requires Bounded(s) && Busy(s) && pair in s.inflight && pair.1 in dirs + around.named
    ensures var flight := s.inflight[pair];
            var (mid, next, said) :=
              Dispatched(lib, s, files, dirs, Changes(pair.0, pair.1, flight.after, page), around);
            var (after, _) := Draining(mid, next, around.admitted, around.clock);
            var follow := FollowUp(next.DigestOf(lib, pair.1), page, flight.retried);
            && next.CatalogueOf(lib, pair.1) == MergedPage(lib, files.CatalogueOf(lib, pair.1), page)
            && Bounded(after) && Busy(after)
            && (follow.Some? ==>
                  && said == [FetchChanges(pair.0, pair.1, follow.value.0)]
                  && pair in after.inflight && pair !in after.deferred
                  && after.inflight[pair]
                     == InFlight(follow.value.0, follow.value.1, around.clock + REQUEST_TIMEOUT))
            && (follow.None? ==>
                  said == [Settled(pair.0, pair.1)] && pair !in after.inflight && pair !in after.deferred)
  {
    var flight := s.inflight[pair];
    var next := FilesAfter(lib, files, pair, page, flight.retried);
    var follow := FollowUp(next.DigestOf(lib, pair.1), page, flight.retried);
    AnsweringKeeps(s, pair, follow, around.clock);
    DrainingKeeps(Answering(s, pair, follow, around.clock).0, next, around.admitted, around.clock);
  }

  /** A peer's refusal settles the round: a read of that pair that was under way is gone, and none is
      queued. */
  lemma RefusalsSettle<C>(
      lib: Library<C>, s: Reads, files: Files<C>, dirs: set<GroupId>, pair: Pair, around: Around)
    requires Bounded(s) && Busy(s) && pair in s.inflight
    ensures var (mid, next, said) := Dispatched(lib, s, files, dirs, Unavailable(pair.0, pair.1), around);
            var (after, _) := Draining(mid, next, around.admitted, around.clock);
            said == [Settled(pair.0, pair.1)] && pair !in after.inflight && pair !in after.deferred
  {
    FreeingKeeps(s, pair);
    DrainingKeeps(s.(inflight := s.inflight - {pair}), files, around.admitted, around.clock);
  }

  /** A page that is not the one waited for changes nothing. */
  lemma StrayPagesChangeNothing<C>(
      lib: Library<C>, s: Reads, files: Files<C>, dirs: set<GroupId>, pair: Pair, at: nat, page: Page, around: Around)
    requires Bounded(s) && Busy(s)
    requires pair !in s.inflight || s.inflight[pair].after != at
    ensures var r := Dispatched(lib, s, files, dirs, Changes(pair.0, pair.1, at, page), around);
            r == (s, files, []) && Draining(s, files, around.admitted, around.clock) == (s, [])
  {
  }

  /** An answer of heads from a ready peer settles exactly the shared groups on whose digest it agrees with
      this node, and leads to reads of exactly the others; nothing is left for the queue to do afterwards. From
      any other peer it does nothing. */
  lemma HeadsSettleOrLeadToReads<C>(
      lib: Library<C>, s: Reads, files: Files<C>, dirs: set<GroupId>, peer: Peer, heads: seq<FileHead>, around: Around)
    requires Bounded(s) && Busy(s)
    ensures var r := Dispatched(lib, s, files, dirs, FileEvent.Heads(peer, heads), around);
            var counting := if |heads| <= 128 then heads else heads[..128];
            && r.1 == files && Draining(r.0, files, around.admitted, around.clock) == (r.0, [])
            && (peer in around.admitted.ready ==>
                  Heard(s, r.0, r.2, files, peer, Agreeing(lib, files, peer, around.sharing, counting),
                        Differing(lib, files, peer, around.sharing, counting), around.clock))
            && (peer !in around.admitted.ready ==> r.0 == s && r.2 == [])
  {
    var counting := Taken(heads, MAX_HEADS_PER_ANSWER);
    HeadsAreHeard(s, lib, files, peer, counting, around.sharing, around.clock);
    NamingHeadsKeeps(s, lib, files, peer, counting, around.sharing, around.clock);
  }

  /** A refusal or a failed request ends the read it is about and no other. A refusal says the round is over,
      a failure does not. */
  lemma FailuresEndTheirRead<C>(
      lib: Library<C>, s: Reads, files: Files<C>, dirs: set<GroupId>, event: FileEvent, around: Around)
    requires event.Unavailable? || event.RequestFailed?
    ensures var r := Dispatched(lib, s, files, dirs, event, around);
            && r.1 == files && r.0.deferred == s.deferred
            && r.2 == (if event.Unavailable? then [Settled(event.peer, event.group)] else [])
            && (forall pair :: pair in r.0.inflight <==>
                  && pair in s.inflight
                  && !(event.Unavailable? && pair == (event.peer, event.group))
                  && !(event.RequestFailed? && pair.0 == event.peer && event.about == Some(pair.1)))
            && (forall pair :: pair in r.0.inflight ==> r.0.inflight[pair] == s.inflight[pair])
  {
  }

  /** A tick ends exactly the reads that are late or whose peer is not ready, and drops exactly the queued
      ones whose peer is gone. */
  lemma TicksEndTheOverdue<C>(
      lib: Library<C>, s: Reads, files: Files<C>, dirs: set<GroupId>, now: int, at: int, around: Around)
    ensures var r := Dispatched(lib, s, files, dirs, FileEvent.Tick(now, at), around);
            && r.1 == files && r.2 == []
            && (forall pair :: pair in r.0.inflight <==>
                  pair in s.inflight && now < s.inflight[pair].deadline && pair.0 in around.admitted.ready)
            && (forall pair :: pair in r.0.inflight ==> r.0.inflight[pair] == s.inflight[pair])
            && (forall pair :: pair in r.0.deferred <==>
                  pair in s.deferred && pair.0 in around.admitted.ready + around.admitted.settling)
  {
    Slots.KeptIsPart(s.deferred, around.admitted);
  }

  /** A page that was waited for moves the cursor of that peer and group to where the page leads, or back to
      the start if the log is to be read again, and no other; and it changes no other catalogue. Without a
      directory for the group's files it only ends the read. */
  lemma PagesMoveOneCursor<C>(
      lib: Library<C>, s: Reads, files: Files<C>, dirs: set<GroupId>, pair: Pair, page: Page, around: Around)
    requires pair in s.inflight
    ensures var flight := s.inflight[pair];
            var r := Dispatched(lib, s, files, dirs, Changes(pair.0, pair.1, flight.after, page), around);
            if pair.1 !in dirs && pair.1 !in around.named
            then r == (s.(inflight := s.inflight - {pair}), files, [])
            else
              var merged := r.1.catalogues[pair.1];
              var again := !page.more && lib.digest(merged) != page.digest && !flight.retried;
              && pair.1 in r.1.catalogues && r.1.catalogues - {pair.1} == files.catalogues - {pair.1}
              && pair in r.1.cursors && r.1.cursors - {pair} == files.cursors - {pair}
              && r.1.cursors[pair]
                 == if again then 0 else if page.next <= 0x7FFF_FFFF_FFFF_FFFF then page.next else 0x7FFF_FFFF_FFFF_FFFF
  {
  }

  /** A directory is resolved exactly when a page that was waited for is of a group that has one. */
  lemma DirectoriesAreResolvedOnDemand(s: Reads, dirs: set<GroupId>, event: FileEvent, around: Around, g: GroupId)
    ensures g in DirsAfter(s, dirs, event, around) <==>
            || g in dirs
            || (&& event.Changes? && event.group == g && g in around.named && (event.peer, g) in s.inflight
                && s.inflight[(event.peer, g)].after == event.after)
  {
  }

  // ---- reading an honest log through the machine ----

  /** A page of this pair is awaited, and its files have a directory to go to. */
  ghost predicate UnderWay(s: Reads, pair: Pair, around: Around) {
    Bounded(s) && Busy(s) && pair in s.inflight && pair.1 in around.named
  }

  /** The read under way is one that ends. */
  ghost predicate ReadingEnds<C>(
      lib: Library<C>, s: Reads, files: Files<C>, pair: Pair, log: seq<LogRow>, digest: Digest, around: Around)
    requires Stamped(log)
  {
    && UnderWay(s, pair, around)
    && var flight := s.inflight[pair];
       Ends(lib, files.CatalogueOf(lib, pair.1), log, digest, (flight.after, flight.retried))
  }

  /** The machine and its files after the page it awaits from a peer with this log. */
  function Fed<C>(
      lib: Library<C>, s: Reads, files: Files<C>, pair: Pair, log: seq<LogRow>, digest: Digest, around: Around)
      : (Reads, Files<C>)
    requires pair in s.inflight
  {
    var page := PageOf(log, digest, s.inflight[pair].after);
    var event := Changes(pair.0, pair.1, s.inflight[pair].after, page);
    var (mid, next, _) := Dispatched(lib, s, files, {}, event, around);
    (Draining(mid, next, around.admitted, around.clock).0, next)
  }

  lemma FeedingContinuesOrSettles<C>(
      lib: Library<C>, s: Reads, files: Files<C>, pair: Pair, log: seq<LogRow>, digest: Digest, around: Around)
    requires UnderWay(s, pair, around)
    ensures var flight := s.inflight[pair];
            var page := PageOf(log, digest, flight.after);
            var (after, next) := Fed(lib, s, files, pair, log, digest, around);
            var merged := MergedPage(lib, files.CatalogueOf(lib, pair.1), page);
            var follow := FollowUp(lib.digest(merged), page, flight.retried);
            && Bounded(after) && Busy(after) && pair !in after.deferred
            && next == FilesAfter(lib, files, pair, page, flight.retried) && next.CatalogueOf(lib, pair.1) == merged
            && (follow.Some? <==> pair in after.inflight)
            && (follow.Some? ==> (after.inflight[pair].after, after.inflight[pair].retried) == follow.value)
  {
    AnswersContinueOrSettle(lib, s, files, {}, pair, PageOf(log, digest, s.inflight[pair].after), around);
  }

  /** Whether the machine stops asking after at most this many pages. */
  predicate SettlesWithin<C>(
      lib: Library<C>, s: Reads, files: Files<C>, pair: Pair, log: seq<LogRow>, digest: Digest, around: Around, n: nat)
    requires pair in s.inflight
    decreases n
  {
    var (after, next) := Fed(lib, s, files, pair, log, digest, around);
    n > 0 && (pair !in after.inflight || SettlesWithin(lib, after, next, pair, log, digest, around, n - 1))
  }

  lemma {:induction false} SettlingIsStopping<C>(
      lib: Library<C>, s: Reads, files: Files<C>, pair: Pair, log: seq<LogRow>, digest: Digest, around: Around, n: nat)
    requires UnderWay(s, pair, around)
    ensures SettlesWithin(lib, s, files, pair, log, digest, around, n)
            <==> StopsWithin(lib, files.CatalogueOf(lib, pair.1), log, digest,
                             (s.inflight[pair].after, s.inflight[pair].retried), n)
    decreases n
  {
    var (after, next) := Fed(lib, s, files, pair, log, digest, around);
    FeedingContinuesOrSettles(lib, s, files, pair, log, digest, around);
    if n > 0 && pair in after.inflight {
      SettlingIsStopping(lib, after, next, pair, log, digest, around, n - 1);
    }
  }

  /** The machine stops asking a peer for its log exactly when the reading is one that ends. */
  lemma MachinesSettleExactly<C>(
      lib: Library<C>, s: Reads, files: Files<C>, pair: Pair, log: seq<LogRow>, digest: Digest, around: Around)
    requires Stamped(log) && UnderWay(s, pair, around)
    ensures (exists n: nat :: SettlesWithin(lib, s, files, pair, log, digest, around, n))
            <==> ReadingEnds(lib, s, files, pair, log, digest, around)
  {
    var (c, flight) := (files.CatalogueOf(lib, pair.1), s.inflight[pair]);
    var request := (flight.after, flight.retried);
    ReadingStopsExactly(lib, c, log, digest, request);
    if Stops(lib, c, log, digest, request) {
      var n: nat :| StopsWithin(lib, c, log, digest, request, n);
      SettlingIsStopping(lib, s, files, pair, log, digest, around, n);
    }
    if exists n: nat :: SettlesWithin(lib, s, files, pair, log, digest, around, n) {
      var n: nat :| SettlesWithin(lib, s, files, pair, log, digest, around, n);
      SettlingIsStopping(lib, s, files, pair, log, digest, around, n);
    }
  }

  /** The machine, fed an honest peer's pages until it stops asking: the catalogue it ends with and the
      number of times it began again. */
  function Conversation<C>(
      lib: Library<C>, s: Reads, files: Files<C>, pair: Pair, log: seq<LogRow>, digest: Digest, around: Around)
      : (r: (Reads, Files<C>, nat))
    requires Stamped(log) && ReadingEnds(lib, s, files, pair, log, digest, around)
    ensures Bounded(r.0) && Busy(r.0) && pair !in r.0.inflight && pair !in r.0.deferred
    decreases Ahead(log, (s.inflight[pair].after, s.inflight[pair].retried)).0,
              Ahead(log, (s.inflight[pair].after, s.inflight[pair].retried)).1
  {
    var flight := s.inflight[pair];
    var page := PageOf(log, digest, flight.after);
    var (after, next) := Fed(lib, s, files, pair, log, digest, around);
    FeedingContinuesOrSettles(lib, s, files, pair, log, digest, around);
    EndsCarries(lib, files.CatalogueOf(lib, pair.1), log, digest, (flight.after, flight.retried));
    FollowUpsDescend(log, digest, next.DigestOf(lib, pair.1), (flight.after, flight.retried));
    if FollowUp(next.DigestOf(lib, pair.1), page, flight.retried).None? then (after, next, 0)
    else
      var rest := Conversation(lib, after, next, pair, log, digest, around);
      (rest.0, rest.1, if page.more then rest.2 else rest.2 + 1)
  }

  lemma {:induction false} ConversationsReadOut<C>(
      lib: Library<C>, s: Reads, files: Files<C>, pair: Pair, log: seq<LogRow>, digest: Digest, around: Around)
    requires Stamped(log) && ReadingEnds(lib, s, files, pair, log, digest, around)
    ensures var flight := s.inflight[pair];
            var ends := Conversation(lib, s, files, pair, log, digest, around);
            (ends.1.CatalogueOf(lib, pair.1), ends.2)
               == ReadOut(lib, files.CatalogueOf(lib, pair.1), log, digest, (flight.after, flight.retried))
    decreases Ahead(log, (s.inflight[pair].after, s.inflight[pair].retried)).0,
              Ahead(log, (s.inflight[pair].after, s.inflight[pair].retried)).1
  {
    var flight := s.inflight[pair];
    var page := PageOf(log, digest, flight.after);
    var (after, next) := Fed(lib, s, files, pair, log, digest, around);
    FeedingContinuesOrSettles(lib, s, files, pair, log, digest, around);
    EndsCarries(lib, files.CatalogueOf(lib, pair.1), log, digest, (flight.after, flight.retried));
    FollowUpsDescend(log, digest, next.DigestOf(lib, pair.1), (flight.after, flight.retried));
    if FollowUp(next.DigestOf(lib, pair.1), page, flight.retried).Some? {
      ConversationsReadOut(lib, after, next, pair, log, digest, around);
    }
  }

  /** A reading leaves the cursor where nothing of the log lies ahead, so the next one starts with what
      is new. */
  lemma {:induction false} ConversationsReachTheEnd<C>(
      lib: Library<C>, s: Reads, files: Files<C>, pair: Pair, log: seq<LogRow>, digest: Digest, around: Around)
    requires Stamped(log) && ReadingEnds(lib, s, files, pair, log, digest, around)
    requires forall i :: 0 <= i < |log| ==> log[i].at <= I64_MAX
    ensures Past(log, Conversation(lib, s, files, pair, log, digest, around).1.Cursor(pair)) == []
    decreases Ahead(log, (s.inflight[pair].after, s.inflight[pair].retried)).0,
              Ahead(log, (s.inflight[pair].after, s.inflight[pair].retried)).1
  {
    var flight := s.inflight[pair];
    var page := PageOf(log, digest, flight.after);
    var (after, next) := Fed(lib, s, files, pair, log, digest, around);
    FeedingContinuesOrSettles(lib, s, files, pair, log, digest, around);
    EndsCarries(lib, files.CatalogueOf(lib, pair.1), log, digest, (flight.after, flight.retried));
    FollowUpsDescend(log, digest, next.DigestOf(lib, pair.1), (flight.after, flight.retried));
    if FollowUp(next.DigestOf(lib, pair.1), page, flight.retried).Some? {
      ConversationsReachTheEnd(lib, after, next, pair, log, digest, around);
    } else {
      NothingPastTheLargest(log, I64_MAX);
    }
  }

  /** The machine's paged reading of an honest log ends, rewinds at most once, and has merged what one
      pass over everything past its cursor merges, and the whole log besides if it rewound. */
  lemma HonestReadingsEnd<C>(
      lib: Library<C>, s: Reads, files: Files<C>, pair: Pair, log: seq<LogRow>, digest: Digest, around: Around)
    requires Stamped(log) && ReadingEnds(lib, s, files, pair, log, digest, around)
    ensures var flight := s.inflight[pair];
            var (_, after, rewinds) := Conversation(lib, s, files, pair, log, digest, around);
            var once := MergedAll(lib, files.CatalogueOf(lib, pair.1), EntriesOf(Past(log, flight.after)));
            if flight.retried || lib.digest(once) == digest
            then after.CatalogueOf(lib, pair.1) == once && rewinds == 0
            else after.CatalogueOf(lib, pair.1) == MergedAll(lib, once, EntriesOf(Past(log, 0))) && rewinds == 1
  {
    var flight := s.inflight[pair];
    ConversationsReadOut(lib, s, files, pair, log, digest, around);
    ReadingIsOneMerge(lib, files.CatalogueOf(lib, pair.1), log, digest, (flight.after, flight.retried));
  }
}
