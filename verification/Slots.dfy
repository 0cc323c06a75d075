/** The bookkeeping of outstanding and queued group fetches: pure steps, and what they keep
    (crates/ac-groups/src/sync.rs). */
module Slots {
  import opened Base
  import opened Wire
  import opened Tables
  import opened Exchange

  const FETCH_TIMEOUT := 30
  const MAX_INFLIGHT := 8
  const MAX_DEFERRED := 256
  const MAX_HEADS_PER_ANSWER := 128

  /** Who is admitted, and of those who is ready. */
  datatype AdmittedPeers = AdmittedPeers(ready: set<Peer>, settling: set<Peer>) {
    predicate IsReady(peer: Peer) {
      peer in ready
    }

    predicate IsAdmitted(peer: Peer) {
      peer in ready || peer in settling
    }
  }

  datatype GroupAction = Fetch(peer: Peer, group: GroupId, from: nat)

  datatype InFlight = InFlight(peer: Peer, from: nat, deadline: int)

  datatype Slots = Slots(inflight: map<GroupId, InFlight>, deferred: seq<(Peer, GroupId)>)

  function HeadSeqOf(db: Db, g: GroupId): nat {
    if At(db, g).row.Some? then At(db, g).row.value.headSeq else 0
  }

  // ---- the steps ----

  predicate Queued(s: Slots, g: GroupId) {
    exists i :: 0 <= i < |s.deferred| && s.deferred[i].1 == g
  }

  function Deferring(s: Slots, peer: Peer, g: GroupId): Slots {
    if Queued(s, g) || |s.deferred| >= MAX_DEFERRED then s
    else s.(deferred := s.deferred + [(peer, g)])
  }

  /** A fetch starts if a slot is free and queues if none is; for a group being fetched nothing happens. */
  function Fetching(s: Slots, peer: Peer, g: GroupId, from: nat, clock: int): (Slots, seq<GroupAction>) {
    if g in s.inflight then (s, [])
    else if |s.inflight| >= MAX_INFLIGHT then (Deferring(s, peer, g), [])
    else (s.(inflight := s.inflight[g := InFlight(peer, from, clock + FETCH_TIMEOUT)]), [Fetch(peer, g, from)])
  }

  function Draining(s: Slots, db: Db, admitted: AdmittedPeers, clock: int): (Slots, seq<GroupAction>)
    decreases |s.deferred|
  {
    if |s.inflight| >= MAX_INFLIGHT || s.deferred == [] then (s, [])
    else
      var (peer, g) := s.deferred[0];
      var popped := s.(deferred := s.deferred[1..]);
      if !admitted.IsAdmitted(peer) || g in s.inflight then Draining(popped, db, admitted, clock)
      else
        var r := Fetching(popped, peer, g, HeadSeqOf(db, g), clock);
        var rest := Draining(r.0, db, admitted, clock);
        (rest.0, r.1 + rest.1)
  }

  function Heeding(s: Slots, db: Db, peer: Peer, head: GroupHead, clock: int): (Slots, seq<GroupAction>) {
    if WorthFetching(At(db, head.group).row, head)
    then Fetching(s, peer, head.group, HeadSeqOf(db, head.group), clock)
    else (s, [])
  }

  function FetchingHeads(s: Slots, db: Db, peer: Peer, heads: seq<GroupHead>, clock: int): (Slots, seq<GroupAction>)
    decreases |heads|
  {
    if heads == [] then (s, [])
    else
      var r := Heeding(s, db, peer, heads[0], clock);
      var rest := FetchingHeads(r.0, db, peer, heads[1..], clock);
      (rest.0, r.1 + rest.1)
  }

  function FetchingGroups(s: Slots, db: Db, peer: Peer, groups: seq<GroupId>, clock: int): (Slots, seq<GroupAction>)
    decreases |groups|
  {
    if groups == [] then (s, [])
    else
      var r := Fetching(s, peer, groups[0], HeadSeqOf(db, groups[0]), clock);
      var rest := FetchingGroups(r.0, db, peer, groups[1..], clock);
      (rest.0, r.1 + rest.1)
  }

  function Finishing(s: Slots, g: GroupId, peer: Peer): Slots {
    if g in s.inflight && s.inflight[g].peer == peer then s.(inflight := s.inflight - {g}) else s
  }

  function Expiring(s: Slots, now: int, admitted: AdmittedPeers): Slots {
    Slots(
      map g | g in s.inflight && now < s.inflight[g].deadline && admitted.IsReady(s.inflight[g].peer) :: s.inflight[g],
      Kept(s.deferred, admitted))
  }

  function Kept(queue: seq<(Peer, GroupId)>, admitted: AdmittedPeers): seq<(Peer, GroupId)> {
    if queue == [] then []
    else (if admitted.IsAdmitted(queue[0].0) then [queue[0]] else []) + Kept(queue[1..], admitted)
  }

  // ---- what they keep ----

  ghost predicate Distinct(queue: seq<(Peer, GroupId)>) {
    forall i, j :: 0 <= i < j < |queue| ==> queue[i].1 != queue[j].1
  }

  /** At most one episode a group, within both bounds. */
  ghost predicate Bounded(s: Slots) {
    && |s.inflight| <= 8 && |s.deferred| <= 256
    && Distinct(s.deferred)
    && (forall i :: 0 <= i < |s.deferred| ==> s.deferred[i].1 !in s.inflight)
  }

  /** Nothing waits while there is room. */
  ghost predicate Busy(s: Slots) {
    |s.inflight| == 8 || s.deferred == []
  }

  /** Every fetch asked for is the outstanding one of its group. */
  ghost predicate Outstanding(s: Slots, actions: seq<GroupAction>) {
    forall i :: 0 <= i < |actions| ==>
      && actions[i].group in s.inflight
      && s.inflight[actions[i].group].peer == actions[i].peer
      && s.inflight[actions[i].group].from == actions[i].from
  }

  /** Outstanding fetches stay as they were asked for. */
  ghost predicate Keeps(s: Slots, after: Slots) {
    forall g :: g in s.inflight ==> g in after.inflight && after.inflight[g] == s.inflight[g]
  }

  lemma FetchingKeeps(s: Slots, peer: Peer, g: GroupId, from: nat, clock: int)
    requires Bounded(s) && (Busy(s) || !Queued(s, g))
    ensures var r := Fetching(s, peer, g, from, clock);
            && Bounded(r.0) && Keeps(s, r.0) && Outstanding(r.0, r.1)
            && (Busy(s) ==> Busy(r.0))
            && (g in r.0.inflight || Queued(r.0, g) || |r.0.deferred| == MAX_DEFERRED)
  {
    var r := Fetching(s, peer, g, from, clock).0;
    if g !in s.inflight && |s.inflight| >= MAX_INFLIGHT && !Queued(s, g) && |s.deferred| < MAX_DEFERRED {
      assert r.deferred[|s.deferred|].1 == g;
    }
  }

  lemma PoppingKeeps(s: Slots)
    requires Bounded(s) && s.deferred != []
    ensures var popped := s.(deferred := s.deferred[1..]);
            && Bounded(popped) && !Queued(popped, s.deferred[0].1) && s.deferred == [s.deferred[0]] + popped.deferred
  {
    assert forall i :: 0 < i < |s.deferred| ==> s.deferred[i] == s.deferred[1..][i - 1];
  }

  /** Draining fills every slot or empties the queue, starts nothing twice, and passes over a queued
      group only if its peer has gone. */
  lemma {:induction false} DrainingKeeps(s: Slots, db: Db, admitted: AdmittedPeers, clock: int)
    requires Bounded(s)
    ensures var r := Draining(s, db, admitted, clock);
            && Bounded(r.0) && Busy(r.0) && Keeps(s, r.0) && Outstanding(r.0, r.1)
            && (forall queued :: queued in s.deferred ==>
                  queued.1 in r.0.inflight || queued in r.0.deferred || !admitted.IsAdmitted(queued.0))
    decreases |s.deferred|
  {
    if |s.inflight| < MAX_INFLIGHT && s.deferred != [] {
      var (peer, g) := s.deferred[0];
      var popped := s.(deferred := s.deferred[1..]);
      PoppingKeeps(s);
      if !admitted.IsAdmitted(peer) || g in s.inflight {
        DrainingKeeps(popped, db, admitted, clock);
      } else {
        var from := HeadSeqOf(db, g);
        FetchingKeeps(popped, peer, g, from, clock);
        var r := Fetching(popped, peer, g, from, clock);
        DrainingKeeps(r.0, db, admitted, clock);
        OutstandingLater(r.0, Draining(r.0, db, admitted, clock).0, r.1);
      }
    }
  }

  function FetchesOf(queue: seq<(Peer, GroupId)>, db: Db): seq<GroupAction> {
    if queue == [] then []
    else [Fetch(queue[0].0, queue[0].1, HeadSeqOf(db, queue[0].1))] + FetchesOf(queue[1..], db)
  }

  /** Where the first of the queue leaves the rest: it goes out from where its log now ends, or is dropped
      because its peer is gone. */
  lemma DrainingOne(s: Slots, db: Db, admitted: AdmittedPeers, clock: int) returns (next: Slots)
    requires Bounded(s) && |s.inflight| < MAX_INFLIGHT && s.deferred != []
    ensures Bounded(next) && next.deferred == s.deferred[1..]
    ensures var (r, rest) := (Draining(s, db, admitted, clock), Draining(next, db, admitted, clock));
            var (peer, g) := s.deferred[0];
            r.0 == rest.0
            && r.1 == (if admitted.IsAdmitted(peer) then [Fetch(peer, g, HeadSeqOf(db, g))] else []) + rest.1
  {
    var (peer, g) := s.deferred[0];
    var popped := s.(deferred := s.deferred[1..]);
    PoppingKeeps(s);
    next := popped;
    if admitted.IsAdmitted(peer) {
      FetchingKeeps(popped, peer, g, HeadSeqOf(db, g), clock);
      next := Fetching(popped, peer, g, HeadSeqOf(db, g), clock).0;
    }
  }

  /** Queued groups go out oldest first, each from where its log now ends: a front part of the queue is
      taken, those of gone peers aside, and the rest waits in order. */
  lemma {:induction false} DrainingIsInOrder(s: Slots, db: Db, admitted: AdmittedPeers, clock: int) returns (k: nat)
    requires Bounded(s)
    ensures k <= |s.deferred|
    ensures var r := Draining(s, db, admitted, clock);
            r.0.deferred == s.deferred[k..] && r.1 == FetchesOf(Kept(s.deferred[..k], admitted), db)
    decreases |s.deferred|
  {
    k := 0;
    if |s.inflight| < MAX_INFLIGHT && s.deferred != [] {
      var next := DrainingOne(s, db, admitted, clock);
      var rest := DrainingIsInOrder(next, db, admitted, clock);
      k := rest + 1;
      FirstAndRest(s.deferred, rest);
      KeptOfFirst(s.deferred[0], next.deferred[..rest], admitted, db);
    }
  }

  lemma FirstAndRest<T>(s: seq<T>, n: nat)
    requires n < |s|
    ensures s[n + 1..] == s[1..][n..] && s[..n + 1] == [s[0]] + s[1..][..n]
  {
  }

  lemma KeptOfFirst(first: (Peer, GroupId), rest: seq<(Peer, GroupId)>, admitted: AdmittedPeers, db: Db)
    ensures FetchesOf(Kept([first] + rest, admitted), db)
            == (if admitted.IsAdmitted(first.0) then [Fetch(first.0, first.1, HeadSeqOf(db, first.1))] else [])
               + FetchesOf(Kept(rest, admitted), db)
  {
    assert ([first] + rest)[1..] == rest;
    assert ([first] + Kept(rest, admitted))[1..] == Kept(rest, admitted);
    assert [] + Kept(rest, admitted) == Kept(rest, admitted);
  }

  lemma OutstandingLater(s: Slots, after: Slots, actions: seq<GroupAction>)
    requires Outstanding(s, actions) && Keeps(s, after)
    ensures Outstanding(after, actions)
  {
  }

  lemma {:induction false} FetchingHeadsKeeps(s: Slots, db: Db, peer: Peer, heads: seq<GroupHead>, clock: int)
    requires Bounded(s) && Busy(s)
    ensures var r := FetchingHeads(s, db, peer, heads, clock);
            Bounded(r.0) && Busy(r.0) && Keeps(s, r.0) && Outstanding(r.0, r.1)
    decreases |heads|
  {
    if heads != [] {
      FetchingKeeps(s, peer, heads[0].group, HeadSeqOf(db, heads[0].group), clock);
      var r := Heeding(s, db, peer, heads[0], clock);
      FetchingHeadsKeeps(r.0, db, peer, heads[1..], clock);
      OutstandingLater(r.0, FetchingHeads(r.0, db, peer, heads[1..], clock).0, r.1);
    }
  }

  lemma {:induction false} FetchingGroupsKeeps(s: Slots, db: Db, peer: Peer, groups: seq<GroupId>, clock: int)
    requires Bounded(s) && Busy(s)
    ensures var r := FetchingGroups(s, db, peer, groups, clock);
            Bounded(r.0) && Busy(r.0) && Keeps(s, r.0) && Outstanding(r.0, r.1)
    decreases |groups|
  {
    if groups != [] {
      FetchingKeeps(s, peer, groups[0], HeadSeqOf(db, groups[0]), clock);
      var r := Fetching(s, peer, groups[0], HeadSeqOf(db, groups[0]), clock);
      FetchingGroupsKeeps(r.0, db, peer, groups[1..], clock);
      OutstandingLater(r.0, FetchingGroups(r.0, db, peer, groups[1..], clock).0, r.1);
    }
  }

  lemma {:induction false} KeptIsPart(queue: seq<(Peer, GroupId)>, admitted: AdmittedPeers)
    ensures var kept := Kept(queue, admitted);
            && |kept| <= |queue|
            && (Distinct(queue) ==> Distinct(kept))
            && (forall x :: x in kept <==> x in queue && admitted.IsAdmitted(x.0))
  {
    if queue != [] {
      KeptIsPart(queue[1..], admitted);
      assert queue == [queue[0]] + queue[1..];
      var rest := Kept(queue[1..], admitted);
      if Distinct(queue) {
        assert Distinct(queue[1..]) by {
          assert forall i :: 0 <= i < |queue| - 1 ==> queue[1..][i] == queue[i + 1];
        }
        forall j | 0 <= j < |rest| ensures rest[j].1 != queue[0].1 {
          assert rest[j] in queue[1..];
          var k :| 0 <= k < |queue| - 1 && queue[1..][k] == rest[j];
          assert queue[k + 1] == rest[j];
        }
      }
    }
  }

  lemma ExpiringKeeps(s: Slots, now: int, admitted: AdmittedPeers)
    requires Bounded(s)
    ensures Bounded(Expiring(s, now, admitted))
    ensures forall g :: g in Expiring(s, now, admitted).inflight ==>
              now < s.inflight[g].deadline && admitted.IsReady(s.inflight[g].peer)
  {
    var after := Expiring(s, now, admitted);
    KeptIsPart(s.deferred, admitted);
    SubmapIsSmaller(after.inflight, s.inflight);
    forall i | 0 <= i < |after.deferred| ensures after.deferred[i].1 !in after.inflight {
      assert after.deferred[i] in s.deferred;
    }
  }

  lemma SubmapIsSmaller<K, V>(a: map<K, V>, b: map<K, V>)
    requires a.Keys <= b.Keys
    ensures |a| <= |b|
  {
    SubsetIsSmaller(a.Keys, b.Keys);
  }

  lemma {:induction false} SubsetIsSmaller<T>(a: set<T>, b: set<T>)
    requires a <= b
    ensures |a| <= |b|
  {
    if x :| x in a {
      SubsetIsSmaller(a - {x}, b - {x});
    }
  }
}
