/** Catalogue reads, outstanding and queued, and the paging of a peer's log: pure steps, and what they
    keep (crates/ac-files/src/sync.rs, crates/ac-files/src/store/log.rs). */
module FileReads {
  import opened Base
  import opened Wire
  import Slots

  const REQUEST_TIMEOUT := 30
  const MAX_INFLIGHT := 8
  const MAX_HEADS_PER_ANSWER := 128
  const MAX_DEFERRED := 16 * MAX_HEADS_PER_ANSWER
  const MAX_ENTRIES_PER_RESPONSE := 2048
  const I64_MAX := 0x7FFF_FFFF_FFFF_FFFF

  type Pair = (Peer, GroupId)

  datatype FileHead = FileHead(group: GroupId, digest: Digest)

  datatype FileAction = FetchChanges(peer: Peer, group: GroupId, after: nat) | Settled(peer: Peer, group: GroupId)

  /** One page of a peer's log, and where the peer stands. */
  datatype Page = Page(entries: seq<Bytes>, next: nat, more: bool, digest: Digest)

  datatype InFlight = InFlight(after: nat, retried: bool, deadline: int)

  datatype Reads = Reads(inflight: map<Pair, InFlight>, deferred: seq<Pair>)

  /** The catalogue store, of which only this is known: a catalogue has a digest, an entry is merged
      into it, and how far each peer was read is remembered. */
  datatype Library<!C> = Library(empty: C, digest: C -> Digest, merge: (C, Bytes) -> C)

  datatype Files<C> = Files(catalogues: map<GroupId, C>, cursors: map<Pair, nat>) {
    function Cursor(pair: Pair): nat {
      if pair in cursors then cursors[pair] else 0
    }

    function Moved(pair: Pair, to: nat): Files<C> {
      this.(cursors := cursors[pair := if to <= I64_MAX then to else I64_MAX])
    }

    function CatalogueOf(lib: Library<C>, g: GroupId): C {
      if g in catalogues then catalogues[g] else lib.empty
    }

    function DigestOf(lib: Library<C>, g: GroupId): Digest {
      lib.digest(CatalogueOf(lib, g))
    }
  }

  function MergedAll<C>(lib: Library<C>, c: C, entries: seq<Bytes>): C
    decreases |entries|
  {
    if entries == [] then c else MergedAll(lib, lib.merge(c, entries[0]), entries[1..])
  }

  function Taken<T>(s: seq<T>, limit: nat): seq<T> {
    if |s| <= limit then s else s[..limit]
  }

  // ---- the steps ----

  function Deferring(s: Reads, pair: Pair): Reads {
    if pair in s.deferred || |s.deferred| >= MAX_DEFERRED then s else s.(deferred := s.deferred + [pair])
  }

  function Reading(s: Reads, pair: Pair, after: nat, retried: bool, clock: int): (Reads, seq<FileAction>) {
    if pair in s.inflight then (s, [])
    else if |s.inflight| >= MAX_INFLIGHT then (Deferring(s, pair), [])
    else
      (s.(inflight := s.inflight[pair := InFlight(after, retried, clock + REQUEST_TIMEOUT)]),
       [FetchChanges(pair.0, pair.1, after)])
  }

  function Draining<C>(s: Reads, files: Files<C>, admitted: Slots.AdmittedPeers, clock: int): (Reads, seq<FileAction>)
    decreases |s.deferred|
  {
    if |s.inflight| >= MAX_INFLIGHT || s.deferred == [] then (s, [])
    else
      var pair := s.deferred[0];
      var popped := s.(deferred := s.deferred[1..]);
      if !admitted.IsAdmitted(pair.0) then Draining(popped, files, admitted, clock)
      else
        var r := Reading(popped, pair, files.Cursor(pair), false, clock);
        var rest := Draining(r.0, files, admitted, clock);
        (rest.0, r.1 + rest.1)
  }

  function Naming<C>(
      s: Reads, lib: Library<C>, files: Files<C>, peer: Peer, head: FileHead, sharing: set<Pair>, clock: int)
      : (Reads, seq<FileAction>)
  {
    var pair := (peer, head.group);
    if pair !in sharing then (s, [])
    else if files.DigestOf(lib, pair.1) == head.digest then (s, [Settled(peer, pair.1)])
    else Reading(s, pair, files.Cursor(pair), false, clock)
  }

  function NamingHeads<C>(
      s: Reads, lib: Library<C>, files: Files<C>, peer: Peer, heads: seq<FileHead>, sharing: set<Pair>, clock: int)
      : (Reads, seq<FileAction>)
    decreases |heads|
  {
    if heads == [] then (s, [])
    else
      var r := Naming(s, lib, files, peer, heads[0], sharing, clock);
      var rest := NamingHeads(r.0, lib, files, peer, heads[1..], sharing, clock);
      (rest.0, r.1 + rest.1)
  }

  /** The request that follows a merged page: on from where it led; from position 0, once, if it was the
      last and the digests differ; otherwise none. */
  function FollowUp(ours: Digest, page: Page, retried: bool): Option<(nat, bool)> {
    if page.more then Some((page.next, retried))
    else if ours != page.digest && !retried then Some((0, true))
    else None
  }

  function MergedPage<C>(lib: Library<C>, c: C, page: Page): C {
    MergedAll(lib, c, Taken(page.entries, MAX_ENTRIES_PER_RESPONSE))
  }

  /** The store after a page: its entries merged, and the cursor where the peer said or rewound. */
  function FilesAfter<C>(lib: Library<C>, files: Files<C>, pair: Pair, page: Page, retried: bool): Files<C> {
    var merged := MergedPage(lib, files.CatalogueOf(lib, pair.1), page);
    var moved := files.(catalogues := files.catalogues[pair.1 := merged]).Moved(pair, page.next);
    if !page.more && FollowUp(lib.digest(merged), page, retried).Some? then moved.Moved(pair, 0) else moved
  }

  /** The read that a page answers ends, and its follow-up, if any, begins. */
  function Answering(s: Reads, pair: Pair, follow: Option<(nat, bool)>, clock: int): (Reads, seq<FileAction>) {
    var freed := s.(inflight := s.inflight - {pair});
    if follow.Some? then Reading(freed, pair, follow.value.0, follow.value.1, clock)
    else (freed, [Settled(pair.0, pair.1)])
  }

  function Expiring(s: Reads, now: int, admitted: Slots.AdmittedPeers): Reads {
    Reads(
      map pair | pair in s.inflight && now < s.inflight[pair].deadline && admitted.IsReady(pair.0) :: s.inflight[pair],
      Slots.Kept(s.deferred, admitted))
  }

  // ---- what they keep ----

  ghost predicate Distinct(queue: seq<Pair>) {
    forall i, j :: 0 <= i < j < |queue| ==> queue[i] != queue[j]
  }

  /** At most one read of a peer's log of a group, within both bounds. */
  ghost predicate Bounded(s: Reads) {
    && |s.inflight| <= 8 && |s.deferred| <= 16 * 128
    && Distinct(s.deferred)
    && forall pair :: pair in s.deferred ==> pair !in s.inflight
  }

  ghost predicate Busy(s: Reads) {
    |s.inflight| == 8 || s.deferred == []
  }

  /** Every page asked for is the one its read now waits for. */
  ghost predicate Outstanding(s: Reads, actions: seq<FileAction>) {
    forall i :: 0 <= i < |actions| && actions[i].FetchChanges? ==>
      && (actions[i].peer, actions[i].group) in s.inflight
      && s.inflight[(actions[i].peer, actions[i].group)].after == actions[i].after
  }

  ghost predicate Keeps(s: Reads, after: Reads) {
    forall pair :: pair in s.inflight ==> pair in after.inflight && after.inflight[pair] == s.inflight[pair]
  }

  lemma OutstandingLater(s: Reads, after: Reads, actions: seq<FileAction>)
    requires Outstanding(s, actions) && Keeps(s, after)
    ensures Outstanding(after, actions)
  {
  }

  lemma ReadingKeeps(s: Reads, pair: Pair, after: nat, retried: bool, clock: int)
    requires Bounded(s) && (Busy(s) || pair !in s.deferred)
    ensures var r := Reading(s, pair, after, retried, clock);
            && Bounded(r.0) && Keeps(s, r.0) && Outstanding(r.0, r.1) && (Busy(s) ==> Busy(r.0))
            && (pair in r.0.inflight || pair in r.0.deferred || |r.0.deferred| == MAX_DEFERRED)
  {
    var r := Reading(s, pair, after, retried, clock).0;
    if pair !in s.inflight && |s.inflight| >= MAX_INFLIGHT && pair !in s.deferred && |s.deferred| < MAX_DEFERRED {
      assert r.deferred[|s.deferred|] == pair;
    }
  }

  /** Draining fills every slot or empties the queue, never touches a read under way, and passes over a
      queued read only if its peer has gone. A pair neither under way nor queued stays so. */
  lemma {:induction false} DrainingKeeps<C>(s: Reads, files: Files<C>, admitted: Slots.AdmittedPeers, clock: int)
    requires Bounded(s)
    ensures var r := Draining(s, files, admitted, clock);
            && Bounded(r.0) && Busy(r.0) && Keeps(s, r.0) && Outstanding(r.0, r.1)
            && (forall pair :: pair in s.deferred ==>
                  pair in r.0.inflight || pair in r.0.deferred || !admitted.IsAdmitted(pair.0))
            && (forall pair :: pair !in s.inflight && pair !in s.deferred ==>
                  pair !in r.0.inflight && pair !in r.0.deferred)
    decreases |s.deferred|
  {
    if |s.inflight| < MAX_INFLIGHT && s.deferred != [] {
      var pair := s.deferred[0];
      var popped := s.(deferred := s.deferred[1..]);
      assert s.deferred == [pair] + popped.deferred;
      assert forall i :: 0 < i < |s.deferred| ==> s.deferred[i] == popped.deferred[i - 1];
      assert pair !in popped.deferred;
      assert Bounded(popped);
      if !admitted.IsAdmitted(pair.0) {
        DrainingKeeps(popped, files, admitted, clock);
      } else {
        var r := Reading(popped, pair, files.Cursor(pair), false, clock);
        ReadingKeeps(popped, pair, files.Cursor(pair), false, clock);
        DrainingKeeps(r.0, files, admitted, clock);
        OutstandingLater(r.0, Draining(r.0, files, admitted, clock).0, r.1);
      }
    }
  }

  function ReadsOf<C>(queue: seq<Pair>, files: Files<C>): seq<FileAction> {
    if queue == [] then []
    else [FetchChanges(queue[0].0, queue[0].1, files.Cursor(queue[0]))] + ReadsOf(queue[1..], files)
  }

  /** Queued reads go out oldest first, each from where its cursor now is: a front part of the queue is
      taken, those of gone peers aside, and the rest waits in order. */
  lemma {:induction false} DrainingIsInOrder<C>(
      s: Reads, files: Files<C>, admitted: Slots.AdmittedPeers, clock: int) returns (k: nat)
    requires Bounded(s)
    ensures k <= |s.deferred|
    ensures var r := Draining(s, files, admitted, clock);
            r.0.deferred == s.deferred[k..] && r.1 == ReadsOf(Slots.Kept(s.deferred[..k], admitted), files)
    decreases |s.deferred|
  {
    k := 0;
    if |s.inflight| < MAX_INFLIGHT && s.deferred != [] {
      var pair := s.deferred[0];
      var popped := s.(deferred := s.deferred[1..]);
      assert s.deferred == [pair] + popped.deferred;
      assert forall i :: 0 < i < |s.deferred| ==> s.deferred[i] == popped.deferred[i - 1];
      assert pair !in popped.deferred;
      var next := popped;
      if admitted.IsAdmitted(pair.0) {
        next := Reading(popped, pair, files.Cursor(pair), false, clock).0;
      }
      var rest := DrainingIsInOrder(next, files, admitted, clock);
      k := rest + 1;
      assert s.deferred[..k] == [pair] + popped.deferred[..rest];
      KeptOfFirst(pair, popped.deferred[..rest], admitted, files);
    }
  }

  lemma KeptOfFirst<C>(first: Pair, rest: seq<Pair>, admitted: Slots.AdmittedPeers, files: Files<C>)
    ensures ReadsOf(Slots.Kept([first] + rest, admitted), files)
            == (if admitted.IsAdmitted(first.0) then [FetchChanges(first.0, first.1, files.Cursor(first))] else [])
               + ReadsOf(Slots.Kept(rest, admitted), files)
  {
    assert ([first] + rest)[1..] == rest;
    assert ([first] + Slots.Kept(rest, admitted))[1..] == Slots.Kept(rest, admitted);
    assert [] + Slots.Kept(rest, admitted) == Slots.Kept(rest, admitted);
  }

  lemma {:induction false} NamingHeadsKeeps<C>(
      s: Reads, lib: Library<C>, files: Files<C>, peer: Peer, heads: seq<FileHead>, sharing: set<Pair>, clock: int)
    requires Bounded(s) && Busy(s)
    ensures var r := NamingHeads(s, lib, files, peer, heads, sharing, clock);
            Bounded(r.0) && Busy(r.0) && Keeps(s, r.0) && Outstanding(r.0, r.1)
    decreases |heads|
  {
    if heads != [] {
      var pair := (peer, heads[0].group);
      var r := Naming(s, lib, files, peer, heads[0], sharing, clock);
      ReadingKeeps(s, pair, files.Cursor(pair), false, clock);
      NamingHeadsKeeps(r.0, lib, files, peer, heads[1..], sharing, clock);
      OutstandingLater(r.0, NamingHeads(r.0, lib, files, peer, heads[1..], sharing, clock).0, r.1);
    }
  }

  /** A follow-up goes out at once, remembering whether the log was read again from the start; without
      one, nothing more of that pair is under way or queued. */
  lemma AnsweringKeeps(s: Reads, pair: Pair, follow: Option<(nat, bool)>, clock: int)
    requires Bounded(s) && pair in s.inflight
    ensures var r := Answering(s, pair, follow, clock);
            && Bounded(r.0) && Outstanding(r.0, r.1) && pair !in r.0.deferred
            && (follow.Some? ==>
                  && r.1 == [FetchChanges(pair.0, pair.1, follow.value.0)]
                  && pair in r.0.inflight
                  && r.0.inflight[pair] == InFlight(follow.value.0, follow.value.1, clock + REQUEST_TIMEOUT))
            && (follow.None? ==> r.1 == [Settled(pair.0, pair.1)] && pair !in r.0.inflight)
            && (forall other :: other != pair && other in s.inflight ==>
                  other in r.0.inflight && r.0.inflight[other] == s.inflight[other])
  {
    FreeingKeeps(s, pair);
    var freed := s.(inflight := s.inflight - {pair});
    if follow.Some? {
      ReadingKeeps(freed, pair, follow.value.0, follow.value.1, clock);
    }
  }

  lemma FreeingKeeps(s: Reads, pair: Pair)
    requires Bounded(s)
    ensures Bounded(s.(inflight := s.inflight - {pair}))
    ensures pair in s.inflight ==> |s.inflight - {pair}| < |s.inflight| && pair !in s.deferred
  {
    Slots.SubmapIsSmaller(s.inflight - {pair}, s.inflight);
    if pair in s.inflight {
      assert s.inflight == (s.inflight - {pair})[pair := s.inflight[pair]];
    }
  }

  lemma ExpiringKeeps(s: Reads, now: int, admitted: Slots.AdmittedPeers)
    requires Bounded(s)
    ensures var after := Expiring(s, now, admitted);
            && Bounded(after)
            && (forall pair :: pair in after.inflight ==> now < s.inflight[pair].deadline && admitted.IsReady(pair.0))
  {
    var after := Expiring(s, now, admitted);
    Slots.KeptIsPart(s.deferred, admitted);
    KeptStaysDistinct(s.deferred, admitted);
    Slots.SubmapIsSmaller(after.inflight, s.inflight);
  }

  lemma {:induction false} KeptStaysDistinct(queue: seq<Pair>, admitted: Slots.AdmittedPeers)
    requires Distinct(queue)
    ensures Distinct(Slots.Kept(queue, admitted))
  {
    if queue != [] {
      assert forall i :: 0 <= i < |queue| - 1 ==> queue[1..][i] == queue[i + 1];
      KeptStaysDistinct(queue[1..], admitted);
      Slots.KeptIsPart(queue[1..], admitted);
      assert queue[0] !in queue[1..];
    }
  }

  // ---- paging through an honest log ----

  /** A row of a peer's log: where it was stamped, the entry it becomes if it can be sent, and whether
      the peer can read it back at all. */
  datatype LogRow = LogRow(at: nat, entry: Option<Bytes>, readable: bool)

  ghost predicate Stamped(log: seq<LogRow>) {
    forall i, j :: 0 <= i < j < |log| ==> log[i].at < log[j].at
  }

  /** The rows stamped after the cursor, the log being in stamp order. */
  function Past(log: seq<LogRow>, cursor: nat): seq<LogRow> {
    if log == [] || log[0].at > cursor then log else Past(log[1..], cursor)
  }

  function EntriesOf(rows: seq<LogRow>): seq<Bytes> {
    if rows == [] then []
    else (if rows[0].readable && rows[0].entry.Some? then [rows[0].entry.value] else []) + EntriesOf(rows[1..])
  }

  function Highest(rows: seq<LogRow>, cursor: nat): nat {
    if rows == [] then cursor
    else Highest(rows[1..], if rows[0].readable && rows[0].at > cursor then rows[0].at else cursor)
  }

  /** The rows a page after `cursor` is made of. */
  function PageRows(log: seq<LogRow>, cursor: nat): seq<LogRow> {
    Taken(Past(log, cursor), MAX_ENTRIES_PER_RESPONSE)
  }

  function NextOf(log: seq<LogRow>, cursor: nat): nat {
    Highest(PageRows(log, cursor), cursor)
  }

  /** What a peer with this log answers a read after `cursor`. */
  function PageOf(log: seq<LogRow>, digest: Digest, cursor: nat): Page {
    var next := NextOf(log, cursor);
    Page(EntriesOf(PageRows(log, cursor)), next, Past(log, next) != [], digest)
  }

  lemma {:induction false} PastIsASuffix(log: seq<LogRow>, cursor: nat) returns (k: nat)
    ensures k <= |log| && Past(log, cursor) == log[k..]
    ensures forall i :: 0 <= i < k ==> log[i].at <= cursor
    ensures k < |log| ==> log[k].at > cursor
  {
    k := 0;
    if log != [] && log[0].at <= cursor {
      var rest := PastIsASuffix(log[1..], cursor);
      assert forall i :: 0 <= i < |log| - 1 ==> log[1..][i] == log[i + 1];
      k := rest + 1;
    }
  }

  lemma {:induction false} NothingPastTheLargest(log: seq<LogRow>, cursor: nat)
    requires forall i :: 0 <= i < |log| ==> log[i].at <= cursor
    ensures Past(log, cursor) == []
  {
    var k := PastIsASuffix(log, cursor);
    assert k == |log|;
  }

  lemma {:induction false} PastOfARow(log: seq<LogRow>, n: nat)
    requires Stamped(log) && 0 < n <= |log|
    ensures Past(log, log[n - 1].at) == log[n..]
  {
    var k := PastIsASuffix(log, log[n - 1].at);
    assert n < |log| ==> log[n].at > log[n - 1].at;
  }

  predicate Unreadable(rows: seq<LogRow>) {
    forall i :: 0 <= i < |rows| ==> !rows[i].readable
  }

  /** The peer cannot read back a single row of the page after this position. */
  predicate Stuck(log: seq<LogRow>, cursor: nat) {
    PageRows(log, cursor) != [] && Unreadable(PageRows(log, cursor))
  }

  /** The highest stamp is that of the last readable row. */
  lemma {:induction false} HighestIsLastReadable(rows: seq<LogRow>, cursor: nat) returns (m: nat)
    requires Stamped(rows) && (rows != [] ==> rows[0].at > cursor)
    ensures m <= |rows| && Unreadable(rows[m..])
    ensures Highest(rows, cursor) == if m == 0 then cursor else rows[m - 1].at
    ensures m > 0 ==> rows[m - 1].readable
  {
    m := 0;
    if rows != [] {
      assert forall i :: 0 <= i < |rows| - 1 ==> rows[1..][i] == rows[i + 1];
      var rest := HighestIsLastReadable(rows[1..], if rows[0].readable then rows[0].at else cursor);
      m := if rest > 0 then rest + 1 else if rows[0].readable then 1 else 0;
      assert forall i :: 1 <= i <= |rows| ==> rows[i..] == rows[1..][i - 1..];
      assert m == 0 ==> rows == [rows[0]] + rows[1..];
    }
  }

  lemma {:induction false} EntriesOfUnreadable(rows: seq<LogRow>)
    requires Unreadable(rows)
    ensures EntriesOf(rows) == []
  {
    if rows != [] {
      EntriesOfUnreadable(rows[1..]);
    }
  }

  lemma {:induction false} EntriesOfSplit(a: seq<LogRow>, b: seq<LogRow>)
    ensures EntriesOf(a + b) == EntriesOf(a) + EntriesOf(b)
  {
    if a == [] {
      assert a + b == b;
    } else {
      assert (a + b)[1..] == a[1..] + b;
      EntriesOfSplit(a[1..], b);
    }
  }

  lemma UnreadableAddNothing(rows: seq<LogRow>, m: nat)
    requires m <= |rows| && Unreadable(rows[m..])
    ensures EntriesOf(rows) == EntriesOf(rows[..m])
  {
    assert rows == rows[..m] + rows[m..];
    EntriesOfSplit(rows[..m], rows[m..]);
    EntriesOfUnreadable(rows[m..]);
  }

  /** Behind the last readable row of a page lies the rest. */
  lemma NextIsBehind(log: seq<LogRow>, cursor: nat) returns (m: nat)
    requires Stamped(log)
    ensures m <= |PageRows(log, cursor)| && Unreadable(PageRows(log, cursor)[m..])
    ensures m > 0 ==> PageRows(log, cursor)[m - 1].readable
    ensures NextOf(log, cursor) == if m == 0 then cursor else PageRows(log, cursor)[m - 1].at
    ensures Past(log, NextOf(log, cursor)) == Past(log, cursor)[m..]
  {
    var k := PastIsASuffix(log, cursor);
    var rows := PageRows(log, cursor);
    assert forall i :: 0 <= i < |rows| ==> rows[i] == log[k + i];
    m := HighestIsLastReadable(rows, cursor);
    if m > 0 {
      assert rows[m - 1] == log[k + m - 1];
      PastOfARow(log, k + m);
      assert log[k..][m..] == log[k + m..];
    }
  }

  /** A page carries the rows up to its last readable one, and the position it leads to is right behind
      that row: nothing readable is passed over, and the rows after it come again on the next page. */
  lemma PageAdvances(log: seq<LogRow>, digest: Digest, cursor: nat) returns (m: nat)
    requires Stamped(log)
    ensures var page := PageOf(log, digest, cursor);
            var rest := Past(log, cursor);
            && m <= |PageRows(log, cursor)| <= |rest| && Past(log, page.next) == rest[m..]
            && page.entries == EntriesOf(rest[..m]) && Unreadable(PageRows(log, cursor)[m..])
            && page.next == if m == 0 then cursor else rest[m - 1].at
    ensures m == 0 <==> Past(log, cursor) == [] || Stuck(log, cursor)
  {
    m := NextIsBehind(log, cursor);
    var rows := PageRows(log, cursor);
    UnreadableAddNothing(rows, m);
    assert rows[..m] == Past(log, cursor)[..m];
    assert m == 0 ==> rows[m..] == rows;
  }

  /** A request's place in a reading: not yet rewound, and how many rows lie ahead. */
  function Ahead(log: seq<LogRow>, request: (nat, bool)): (nat, nat) {
    (if request.1 then 0 else 1, |Past(log, request.0)|)
  }

  predicate Smaller(a: (nat, nat), b: (nat, nat)) {
    a.0 < b.0 || (a.0 == b.0 && a.1 < b.1)
  }

  lemma PageShortens(log: seq<LogRow>, cursor: nat)
    requires Stamped(log)
    ensures |Past(log, NextOf(log, cursor))| <= |Past(log, cursor)|
    ensures |Past(log, NextOf(log, cursor))| < |Past(log, cursor)| <==> Past(log, cursor) != [] && !Stuck(log, cursor)
    ensures Stuck(log, cursor) ==> NextOf(log, cursor) == cursor && EntriesOf(PageRows(log, cursor)) == []
  {
    var rest, left := Past(log, cursor), Past(log, NextOf(log, cursor));
    var m := PageAdvances(log, Zeroes, cursor);
    assert |left| == |rest| - m;
  }

  /** Every follow-up brings the reading of an honest log closer to its end, except exactly one sent after
      a page of which no row could be read back. */
  lemma FollowUpsDescend(log: seq<LogRow>, digest: Digest, ours: Digest, request: (nat, bool))
    requires Stamped(log)
    ensures var follow := FollowUp(ours, PageOf(log, digest, request.0), request.1);
            follow.Some? ==> (Smaller(Ahead(log, follow.value), Ahead(log, request)) <==> !Stuck(log, request.0))
  {
    PageShortens(log, request.0);
  }

  /** The reader is sent back to the very same page exactly when rows lie ahead and the peer cannot read
      back a single one of the page's. */
  lemma StuckExactlyOnAnUnreadablePage(log: seq<LogRow>, digest: Digest, ours: Digest, request: (nat, bool))
    requires Stamped(log)
    ensures var page := PageOf(log, digest, request.0);
            page.more && FollowUp(ours, page, request.1) == Some(request) <==> Stuck(log, request.0)
  {
    PageShortens(log, request.0);
  }

  lemma {:induction false} MergedAllSplit<C>(lib: Library<C>, c: C, a: seq<Bytes>, b: seq<Bytes>)
    ensures MergedAll(lib, c, a + b) == MergedAll(lib, MergedAll(lib, c, a), b)
    decreases |a|
  {
    if a == [] {
      assert a + b == b;
    } else {
      assert (a + b)[1..] == a[1..] + b;
      MergedAllSplit(lib, lib.merge(c, a[0]), a[1..], b);
    }
  }

  /** A row gives its entry if it can be read back and has one, and merging is of one entry after another. */
  lemma RowsGiveTheirEntries<C>(lib: Library<C>, c: C, row: LogRow, entry: Bytes)
    ensures EntriesOf([row]) == if row.readable && row.entry.Some? then [row.entry.value] else []
    ensures MergedAll(lib, c, [entry]) == lib.merge(c, entry)
  {
    assert [row][1..] == [] && [entry][1..] == [];
  }

  lemma {:induction false} EntriesFit(rows: seq<LogRow>)
    ensures |EntriesOf(rows)| <= |rows|
  {
    if rows != [] {
      EntriesFit(rows[1..]);
    }
  }

  lemma OnePageMerges<C>(lib: Library<C>, c: C, log: seq<LogRow>, digest: Digest, cursor: nat)
    requires Stamped(log)
    ensures var page := PageOf(log, digest, cursor);
            MergedAll(lib, c, EntriesOf(Past(log, cursor)))
            == MergedAll(lib, MergedPage(lib, c, page), EntriesOf(Past(log, page.next)))
  {
    var page := PageOf(log, digest, cursor);
    var rest := Past(log, cursor);
    var m := PageAdvances(log, digest, cursor);
    EntriesFit(rest[..m]);
    assert Taken(page.entries, MAX_ENTRIES_PER_RESPONSE) == EntriesOf(rest[..m]);
    assert rest == rest[..m] + rest[m..];
    EntriesOfSplit(rest[..m], rest[m..]);
    MergedAllSplit(lib, c, EntriesOf(rest[..m]), EntriesOf(rest[m..]));
  }

  // ---- when a reading ends ----

  /** No page reached from this position on is one of unreadable rows only. */
  predicate Flows(log: seq<LogRow>, cursor: nat)
    requires Stamped(log)
    decreases |Past(log, cursor)|
  {
    PageShortens(log, cursor);
    Past(log, cursor) == [] || (!Stuck(log, cursor) && Flows(log, NextOf(log, cursor)))
  }

  /** What a reading must meet to end: it gets past every page ahead, and past every page of the log if
      the digests will still differ then and the log has not been read again. */
  predicate Ends<C>(lib: Library<C>, c: C, log: seq<LogRow>, digest: Digest, request: (nat, bool))
    requires Stamped(log)
  {
    && Flows(log, request.0)
    && (request.1 || lib.digest(MergedAll(lib, c, EntriesOf(Past(log, request.0)))) == digest || Flows(log, 0))
  }

  /** Whether the reading asks for at most this many pages. */
  predicate StopsWithin<C>(lib: Library<C>, c: C, log: seq<LogRow>, digest: Digest, request: (nat, bool), n: nat)
    decreases n
  {
    var page := PageOf(log, digest, request.0);
    var merged := MergedPage(lib, c, page);
    var follow := FollowUp(lib.digest(merged), page, request.1);
    n > 0 && (follow.None? || StopsWithin(lib, merged, log, digest, follow.value, n - 1))
  }

  ghost predicate Stops<C>(lib: Library<C>, c: C, log: seq<LogRow>, digest: Digest, request: (nat, bool)) {
    exists n: nat :: StopsWithin(lib, c, log, digest, request, n)
  }

  /** Whether a reading will end is settled by the log and does not change from page to page. */
  lemma EndsCarries<C>(lib: Library<C>, c: C, log: seq<LogRow>, digest: Digest, request: (nat, bool))
    requires Stamped(log)
    ensures var page := PageOf(log, digest, request.0);
            var merged := MergedPage(lib, c, page);
            var follow := FollowUp(lib.digest(merged), page, request.1);
            && (follow.None? ==> Ends(lib, c, log, digest, request))
            && (follow.Some? ==>
                  (Ends(lib, c, log, digest, request) <==> Ends(lib, merged, log, digest, follow.value)))
  {
    var page := PageOf(log, digest, request.0);
    var merged := MergedPage(lib, c, page);
    PageShortens(log, request.0);
    OnePageMerges(lib, c, log, digest, request.0);
    if Stuck(log, request.0) {
      assert merged == c && FollowUp(lib.digest(merged), page, request.1) == Some(request);
    } else if page.more {
      assert Flows(log, request.0) == Flows(log, page.next);
    } else {
      assert Flows(log, request.0);
      assert MergedAll(lib, c, EntriesOf(Past(log, request.0))) == merged;
    }
  }

  lemma {:induction false} EndingReadingsStop<C>(
      lib: Library<C>, c: C, log: seq<LogRow>, digest: Digest, request: (nat, bool)) returns (n: nat)
    requires Stamped(log) && Ends(lib, c, log, digest, request)
    ensures StopsWithin(lib, c, log, digest, request, n)
    decreases Ahead(log, request).0, Ahead(log, request).1
  {
    var page := PageOf(log, digest, request.0);
    var merged := MergedPage(lib, c, page);
    var follow := FollowUp(lib.digest(merged), page, request.1);
    EndsCarries(lib, c, log, digest, request);
    FollowUpsDescend(log, digest, lib.digest(merged), request);
    n := 1;
    if follow.Some? {
      var rest := EndingReadingsStop(lib, merged, log, digest, follow.value);
      n := rest + 1;
    }
  }

  lemma {:induction false} StoppingReadingsEnd<C>(
      lib: Library<C>, c: C, log: seq<LogRow>, digest: Digest, request: (nat, bool), n: nat)
    requires Stamped(log) && StopsWithin(lib, c, log, digest, request, n)
    ensures Ends(lib, c, log, digest, request)
    decreases n
  {
    var page := PageOf(log, digest, request.0);
    var merged := MergedPage(lib, c, page);
    var follow := FollowUp(lib.digest(merged), page, request.1);
    EndsCarries(lib, c, log, digest, request);
    if follow.Some? {
      StoppingReadingsEnd(lib, merged, log, digest, follow.value, n - 1);
    }
  }

  /** A reading of an unchanging log stops asking exactly when it never reaches a page of unreadable rows
      only, neither on the way to the end nor, if it must read again, from the start. */
  lemma ReadingStopsExactly<C>(lib: Library<C>, c: C, log: seq<LogRow>, digest: Digest, request: (nat, bool))
    requires Stamped(log)
    ensures Stops(lib, c, log, digest, request) <==> Ends(lib, c, log, digest, request)
  {
    if Ends(lib, c, log, digest, request) {
      var n := EndingReadingsStop(lib, c, log, digest, request);
    } else if Stops(lib, c, log, digest, request) {
      var n: nat :| StopsWithin(lib, c, log, digest, request, n);
      StoppingReadingsEnd(lib, c, log, digest, request, n);
    }
  }

  /** The last row that can be asked for is readable, and no page's worth of rows in a row is unreadable. */
  predicate Passable(log: seq<LogRow>) {
    var rows := Past(log, 0);
    && (rows != [] ==> rows[|rows| - 1].readable)
    && forall k: nat :: k + 2048 <= |rows| ==> !Unreadable(rows[k..][..2048])
  }

  /** Whatever the position, what lies past it is some end of what lies past the start. */
  lemma PastIsASuffixOfAll(log: seq<LogRow>, cursor: nat) returns (k: nat)
    requires Stamped(log)
    ensures k <= |Past(log, 0)| && Past(log, cursor) == Past(log, 0)[k..]
  {
    var all := PastIsASuffix(log, 0);
    var some := PastIsASuffix(log, cursor);
    k := some - all;
    assert Past(log, 0)[k..] == log[some..];
  }

  lemma PassableIsNeverStuck(log: seq<LogRow>, cursor: nat)
    requires Stamped(log) && Passable(log)
    ensures !Stuck(log, cursor)
  {
    var rows := Past(log, 0);
    var k := PastIsASuffixOfAll(log, cursor);
    var page := PageRows(log, cursor);
    if k + 2048 <= |rows| {
      assert page == rows[k..][..2048];
    } else if page != [] {
      assert page[|page| - 1] == rows[|rows| - 1];
    }
  }

  /** Some position leads to each end of the log. */
  lemma EndsAreReached(log: seq<LogRow>, k: nat) returns (cursor: nat)
    requires Stamped(log) && k <= |Past(log, 0)|
    ensures Past(log, cursor) == Past(log, 0)[k..]
  {
    var all := PastIsASuffix(log, 0);
    cursor := 0;
    if k > 0 {
      cursor := log[all + k - 1].at;
      PastOfARow(log, all + k);
      assert Past(log, 0)[k..] == log[all + k..];
    }
  }

  lemma NeverStuckIsPassable(log: seq<LogRow>)
    requires Stamped(log) && forall cursor :: !Stuck(log, cursor)
    ensures Passable(log)
  {
    var rows := Past(log, 0);
    if rows != [] {
      var cursor := EndsAreReached(log, |rows| - 1);
      assert PageRows(log, cursor) == [rows[|rows| - 1]];
      assert !Stuck(log, cursor);
    }
    forall k: nat | k + 2048 <= |rows|
      ensures !Unreadable(rows[k..][..2048])
    {
      var cursor := EndsAreReached(log, k);
      assert PageRows(log, cursor) == rows[k..][..2048];
      assert !Stuck(log, cursor);
    }
  }

  lemma {:induction false} NeverStuckFlows(log: seq<LogRow>, cursor: nat)
    requires Stamped(log) && forall c :: !Stuck(log, c)
    ensures Flows(log, cursor)
    decreases |Past(log, cursor)|
  {
    PageShortens(log, cursor);
    if Past(log, cursor) != [] {
      NeverStuckFlows(log, NextOf(log, cursor));
    }
  }

  /** Every reading of a log stops, wherever it begins, exactly when the log's last row is readable and no
      page's worth of rows in a row is unreadable. */
  lemma EveryReadingStopsExactly<C>(lib: Library<C>, c: C, log: seq<LogRow>, digest: Digest)
    requires Stamped(log)
    ensures (forall request :: Stops(lib, c, log, digest, request)) <==> Passable(log)
  {
    if Passable(log) {
      forall cursor ensures !Stuck(log, cursor) {
        PassableIsNeverStuck(log, cursor);
      }
      forall request ensures Stops(lib, c, log, digest, request) {
        NeverStuckFlows(log, request.0);
        NeverStuckFlows(log, 0);
        ReadingStopsExactly(lib, c, log, digest, request);
      }
    } else if forall request :: Stops(lib, c, log, digest, request) {
      forall cursor ensures !Stuck(log, cursor) {
        assert Stops(lib, c, log, digest, (cursor, true));
        ReadingStopsExactly(lib, c, log, digest, (cursor, true));
      }
      NeverStuckIsPassable(log);
    }
  }

  // ---- what a reading merges ----

  /** A whole reading of an unchanging log, page after page: the catalogue it ends with, and how often
      it went back to the start. */
  function ReadOut<C>(lib: Library<C>, c: C, log: seq<LogRow>, digest: Digest, request: (nat, bool)): (C, nat)
    requires Stamped(log) && Ends(lib, c, log, digest, request)
    decreases Ahead(log, request).0, Ahead(log, request).1
  {
    var page := PageOf(log, digest, request.0);
    var merged := MergedPage(lib, c, page);
    var follow := FollowUp(lib.digest(merged), page, request.1);
    EndsCarries(lib, c, log, digest, request);
    FollowUpsDescend(log, digest, lib.digest(merged), request);
    if follow.None? then (merged, 0)
    else
      var rest := ReadOut(lib, merged, log, digest, follow.value);
      (rest.0, if page.more then rest.1 else rest.1 + 1)
  }

  /** Page after page comes to one merge of everything past the cursor. If the digests then agree, or
      the log was being read again already, that is all; otherwise exactly one rewind merges the whole
      log besides. */
  lemma {:induction false} ReadingIsOneMerge<C>(
      lib: Library<C>, c: C, log: seq<LogRow>, digest: Digest, request: (nat, bool))
    requires Stamped(log) && Ends(lib, c, log, digest, request)
    ensures var once := MergedAll(lib, c, EntriesOf(Past(log, request.0)));
            ReadOut(lib, c, log, digest, request)
            == if request.1 || lib.digest(once) == digest then (once, 0)
               else (MergedAll(lib, once, EntriesOf(Past(log, 0))), 1)
    decreases Ahead(log, request).0, Ahead(log, request).1
  {
    var page := PageOf(log, digest, request.0);
    var merged := MergedPage(lib, c, page);
    OnePageMerges(lib, c, log, digest, request.0);
    EndsCarries(lib, c, log, digest, request);
    FollowUpsDescend(log, digest, lib.digest(merged), request);
    var follow := FollowUp(lib.digest(merged), page, request.1);
    if follow.Some? {
      ReadingIsOneMerge(lib, merged, log, digest, follow.value);
    }
  }
}
