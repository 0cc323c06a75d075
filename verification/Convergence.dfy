/** What two nodes end up agreeing on when one takes in what the other serves. */
module Convergence {
  import opened Base
  import opened Wire
  import opened Standings
  import opened Memberships
  import opened Chains
  import opened ChainLaws
  import opened Tables
  import opened StoreLaws
  import opened Runs

  // ---- logs that agree ----

  /** The two logs have the same entry bodies below `n`. Signature bytes may differ. */
  ghost predicate AgreeBelow(a: Log, b: Log, n: nat)
  {
    && n <= |a.entries| && n <= |b.entries|
    && forall i :: 0 <= i < n ==> a.entries[i].entry.body == b.entries[i].entry.body
  }

  lemma {:induction false} AgreeingLogs(w: World, a: Log, b: Log, n: nat)
    requires ValidLog(w, a) && ValidLog(w, b) && AgreeBelow(a, b, n)
    ensures forall i :: 0 <= i < n ==> a.entries[i].body == b.entries[i].body && a.entries[i].hash == b.entries[i].hash
    ensures Fold(a.entries[..n]) == Fold(b.entries[..n])
  {
    forall i | 0 <= i < n
      ensures a.entries[i].body == b.entries[i].body && a.entries[i].hash == b.entries[i].hash
    {
      assert i > 0 ==> Follows(w, a, i) && Follows(w, b, i);
    }
    FoldDependsOnBodies(a.entries[..n], b.entries[..n]);
  }

  lemma {:induction false} OneHashForcesAgreement(w: World, a: Log, b: Log, i: nat)
    requires ValidLog(w, a) && ValidLog(w, b)
    requires i < |a.entries| && i < |b.entries| && a.entries[i].hash == b.entries[i].hash
    ensures AgreeBelow(a, b, i + 1)
  {
    CommonBodyForcesPrefix(w, a, b, i);
  }

  /** Our entries followed by theirs from where ours end, up to `n`. */
  function Splice(a: Log, b: Log, n: nat): Log
    requires |a.entries| <= n <= |b.entries|
  {
    Log(a.id, a.admin, a.entries + b.entries[|a.entries|..n])
  }

  lemma SpliceIsValid(w: World, a: Log, b: Log, n: nat)
    requires ValidLog(w, a) && ValidLog(w, b) && a.id == b.id
    requires AgreeBelow(a, b, |a.entries|) && |a.entries| <= n <= |b.entries|
    ensures ValidLog(w, Splice(a, b, n)) && AgreeBelow(Splice(a, b, n), b, n)
  {
    var s := Splice(a, b, n);
    assert s.entries[0] == a.entries[0];
    forall i | 0 < i < n ensures Follows(w, s, i) {
      if i < |a.entries| {
        SplicedOurs(w, a, b, n, i);
      } else {
        SplicedTheirs(w, a, b, n, i);
      }
    }
  }

  lemma SplicedOurs(w: World, a: Log, b: Log, n: nat, i: nat)
    requires ValidLog(w, a) && 0 < i < |a.entries| <= n <= |b.entries|
    ensures Follows(w, Splice(a, b, n), i)
  {
    assert Follows(w, a, i);
    assert Splice(a, b, n).entries[..i] == a.entries[..i];
  }

  lemma SplicedTheirs(w: World, a: Log, b: Log, n: nat, i: nat)
    requires ValidLog(w, a) && ValidLog(w, b) && a.id == b.id
    requires AgreeBelow(a, b, |a.entries|) && 0 < |a.entries| <= i < n <= |b.entries|
    ensures Follows(w, Splice(a, b, n), i)
  {
    var s := Splice(a, b, n);
    SameIdSameGenesis(w, a, b);
    AgreeingLogs(w, a, b, |a.entries|);
    assert Follows(w, b, i) && s.entries[i] == b.entries[i];
    assert s.entries[i - 1].body == b.entries[i - 1].body && s.entries[i - 1].hash == b.entries[i - 1].hash;
    FoldDependsOnBodies(s.entries[..i], b.entries[..i]);
  }

  // ---- what put accepts ----

  /** A non-empty slice of any valid log of the same group is accepted only if that log agrees with
      ours on everything the slice reaches: after the put the two agree below its end. */
  lemma PutAcceptsOnlyAgreement(
      w: World, g: GroupId, shelf: Shelf, ours: Log, theirs: Log, from: nat, to: nat)
    requires Stores(w, g, shelf, ours) && ValidLog(w, theirs) && theirs.id == g
    requires from < to <= |theirs.entries|
    requires PlanPut(w, g, shelf, from, theirs.Raw()[from..to]).Ok?
    ensures var next := PlanPut(w, g, shelf, from, theirs.Raw()[from..to]).value.log;
            && ValidLog(w, next) && Extends(next, ours)
            && |next.entries| == (if to > |ours.entries| then to else |ours.entries|)
            && AgreeBelow(next, theirs, to)
  {
    var es := theirs.Raw()[from..to];
    PlanPutIsSound(w, g, shelf, ours, from, es);
    StoredLogIsRead(w, g, shelf, ours);
    var next := PlanPut(w, g, shelf, from, es).value.log;
    LastHashAgrees(w, g, ours, theirs, from, to, next);
    OneHashForcesAgreement(w, next, theirs, to - 1);
  }

  lemma LastHashAgrees(w: World, g: GroupId, ours: Log, theirs: Log, from: nat, to: nat, next: Log)
    requires ValidLog(w, ours) && ValidLog(w, theirs) && ValidLog(w, next) && Extends(next, ours)
    requires from < to <= |theirs.entries| && from <= |ours.entries|
    requires var es := theirs.Raw()[from..to];
             var overlap := Overlap(|ours.entries|, from, |es|);
             && FirstDifference(ours, from, es, 0, overlap).None?
             && next.Raw() == ours.Raw() + es[overlap..]
    ensures |next.entries| == (if to > |ours.entries| then to else |ours.entries|)
    ensures next.entries[to - 1].hash == theirs.entries[to - 1].hash
  {
    var es := theirs.Raw()[from..to];
    var overlap := Overlap(|ours.entries|, from, |es|);
    var at := to - 1;
    assert |next.Raw()| == |next.entries| && |ours.Raw()| == |ours.entries|;
    assert es[|es| - 1] == theirs.Raw()[at];
    HashIsOfBody(w, theirs, at);
    if overlap < |es| {
      assert next.Raw()[at] == es[|es| - 1];
      HashIsOfBody(w, next, at);
    } else {
      NoDifference(ours, from, es, 0, overlap, |es| - 1);
    }
  }

  lemma HashIsOfBody(w: World, log: Log, i: nat)
    requires ValidLog(w, log) && i < |log.entries|
    ensures log.entries[i].hash == log.Raw()[i].Hash()
  {
    assert i > 0 ==> Follows(w, log, i);
  }

  lemma {:induction false} NoDifference(log: Log, from: nat, es: seq<Entry>, i: nat, n: nat, k: nat)
    requires i <= k < n <= |es| && FirstDifference(log, from, es, i, n).None?
    ensures log.HashAt(from + k) == Some(es[k].Hash())
    decreases n - i
  {
    if i < k {
      NoDifference(log, from, es, i + 1, n, k);
    }
  }

  lemma {:induction false} NothingDiffers(log: Log, from: nat, es: seq<Entry>, i: nat, n: nat)
    requires i <= n <= |es|
    requires forall k :: i <= k < n ==> log.HashAt(from + k) == Some(es[k].Hash())
    ensures FirstDifference(log, from, es, i, n).None?
    decreases n - i
  {
    if i < n {
      NothingDiffers(log, from, es, i + 1, n);
    }
  }

  // ---- taking in what an agreeing node serves ----

  /** Asked for everything from where we end, a node whose log agrees with ours sends entries that
      `put` accepts, up to `limit`. */
  lemma PutOfServedEntries(
      w: World, g: GroupId, shelf: Shelf, ours: Log, theirs: Log, limit: nat)
    requires Stores(w, g, shelf, ours) && ValidLog(w, theirs) && theirs.id == g
    requires AgreeBelow(ours, theirs, |ours.entries|) && |ours.entries| <= limit <= |theirs.entries|
    ensures PlanPut(w, g, shelf, |ours.entries|, Between(theirs, |ours.entries|, limit)) ==
            Ok(PutPlan(ours.Members(), |ours.entries|, Between(theirs, |ours.entries|, limit),
                       Splice(ours, theirs, limit)))
  {
    var m := |ours.entries|;
    var es := Between(theirs, m, limit);
    var s := Splice(ours, theirs, limit);
    SpliceIsValid(w, ours, theirs, limit);
    StoredLogIsRead(w, g, shelf, ours);
    assert |theirs.Raw()| == |theirs.entries|;
    assert s.Raw() == ours.Raw() + es;
    ExtendIsValidity(w, ours, es, s);
    assert Overlap(m, m, |es|) == 0 && es[0..] == es;
  }

  /** The part of a slice that overlaps our log shows no difference if the logs agree there. */
  lemma AgreeingSliceOverlaps(w: World, ours: Log, theirs: Log, from: nat, to: nat, n: nat)
    requires ValidLog(w, ours) && ValidLog(w, theirs) && from <= to <= |theirs.entries| && n <= to - from
    requires from + n <= |ours.entries| && AgreeBelow(ours, theirs, from + n)
    ensures FirstDifference(ours, from, theirs.Raw()[from..to], 0, n).None?
  {
    var es := theirs.Raw()[from..to];
    AgreeingLogs(w, ours, theirs, from + n);
    forall k | 0 <= k < n ensures ours.HashAt(from + k) == Some(es[k].Hash()) {
      HashIsOfBody(w, theirs, from + k);
    }
    NothingDiffers(ours, from, es, 0, n);
  }

  /** A non-empty slice of any valid log of the same group is accepted exactly when it leaves no gap and
      the two logs agree as far as both the slice and ours reach. */
  lemma PutAcceptsExactlyAgreement(
      w: World, g: GroupId, shelf: Shelf, ours: Log, theirs: Log, from: nat, to: nat)
    requires Stores(w, g, shelf, ours) && ValidLog(w, theirs) && theirs.id == g
    requires from < to <= |theirs.entries|
    ensures PlanPut(w, g, shelf, from, theirs.Raw()[from..to]).Ok?
            <==> from <= |ours.entries|
                 && AgreeBelow(ours, theirs, if to <= |ours.entries| then to else |ours.entries|)
  {
    var es := theirs.Raw()[from..to];
    var m := |ours.entries|;
    StoredLogIsRead(w, g, shelf, ours);
    if PlanPut(w, g, shelf, from, es).Ok? {
      PutAcceptsOnlyAgreement(w, g, shelf, ours, theirs, from, to);
      PrefixAgrees(PlanPut(w, g, shelf, from, es).value.log, ours, theirs, to);
    } else if from <= m && AgreeBelow(ours, theirs, if to <= m then to else m) {
      var n := Overlap(m, from, |es|);
      AgreeingSliceOverlaps(w, ours, theirs, from, to, n);
      RestOfSliceExtends(w, ours, theirs, from, to, n);
      assert false;
    }
  }

  lemma PrefixAgrees(next: Log, ours: Log, theirs: Log, to: nat)
    requires Extends(next, ours) && AgreeBelow(next, theirs, to)
    ensures AgreeBelow(ours, theirs, if to <= |ours.entries| then to else |ours.entries|)
  {
    assert forall i :: 0 <= i < |ours.entries| ==> next.entries[i] == ours.entries[i];
  }

  lemma SplicedRaw(a: Log, b: Log, n: nat)
    requires |a.entries| <= n <= |b.entries|
    ensures Splice(a, b, n).Raw() == a.Raw() + b.Raw()[|a.entries|..n]
  {
  }

  lemma RestOfSliceExtends(w: World, ours: Log, theirs: Log, from: nat, to: nat, n: nat)
    requires ValidLog(w, ours) && ValidLog(w, theirs) && theirs.id == ours.id
    requires from < to <= |theirs.entries| && from <= |ours.entries|
    requires n == Overlap(|ours.entries|, from, to - from)
    requires AgreeBelow(ours, theirs, if to <= |ours.entries| then to else |ours.entries|)
    ensures ExtendLog(w, ours, theirs.Raw()[from..to][n..]).Ok?
  {
    var m := |ours.entries|;
    var es := theirs.Raw()[from..to];
    if to <= m {
      assert es[n..] == [];
    } else {
      var s := Splice(ours, theirs, to);
      SpliceIsValid(w, ours, theirs, to);
      assert es[n..] == theirs.Raw()[m..to];
      SplicedRaw(ours, theirs, to);
      ExtendIsValidity(w, ours, es[n..], s);
    }
  }

  /** A node that is already as long takes no entries. */
  lemma PutOfNothing(w: World, g: GroupId, shelf: Shelf, ours: Log)
    requires Stores(w, g, shelf, ours)
    ensures PlanPut(w, g, shelf, |ours.entries|, []) == Ok(PutPlan(ours.Members(), |ours.entries|, [], ours))
  {
    StoredLogIsRead(w, g, shelf, ours);
  }

  lemma ServesUpToRemoval(
      w: World, g: GroupId, me: Peer, shelf: Shelf, ours: Log, them: Peer, from: nat)
    requires Stores(w, g, shelf, ours) && me in shelf.members
    requires them !in shelf.members && Departure(ours.entries, them).Some?
    ensures Serve(w, me, g, shelf, them, from) ==
            Ok(Some(Served(Between(ours, from, Departure(ours.entries, them).value + 1), [])))
  {
    StoredLogIsRead(w, g, shelf, ours);
  }

  lemma {:induction false} AscendingHolds(s: set<nat>, x: nat)
    ensures x in Ascending(s) <==> x in s
  {
    if s != {} {
      AscendingHolds(s - {Least(s)}, x);
    }
  }

  lemma StandingsOfHolds(rows: map<Peer, StandingRow>, s: Standing)
    ensures s in StandingsOf(rows) <==> exists p :: p in rows && rows[p].standing == s
  {
    var order := Ascending(rows.Keys);
    AscendingStays(rows.Keys);
    if p :| p in rows && rows[p].standing == s {
      AscendingHolds(rows.Keys, p);
      var i :| 0 <= i < |order| && order[i] == p;
      assert StandingsOf(rows)[i] == s;
    }
    if s in StandingsOf(rows) {
      var i :| 0 <= i < |order| && StandingsOf(rows)[i] == s;
      assert order[i] in rows;
    }
  }

  /** The entries from one position to another, none if there is nothing between. */
  function Stretch(log: Log, lo: nat, hi: nat): seq<Entry> {
    if lo < hi <= |log.entries| then log.Raw()[lo..hi] else []
  }

  /** Something is served exactly if this node is in and some entry mentions the peer that asks. */
  lemma ServedExactlyToTheMentioned(w: World, g: GroupId, me: Peer, shelf: Shelf, log: Log, peer: Peer, from: nat)
    requires Stores(w, g, shelf, log) && Cached(w, shelf, log)
    ensures var r := Serve(w, me, g, shelf, peer, from);
            r.Ok? && (r.value.Some? <==> me in log.Members() && exists i: nat :: MentionedAt(log.entries, peer, i))
  {
    StoredLogIsRead(w, g, shelf, log);
    LastWordDecides(log.entries, peer);
    if peer in log.Members() {
      var i: nat :| LastWordAt(log.entries, peer, i) && !log.entries[i].body.op.Remove?;
      assert MentionedAt(log.entries, peer, i);
    }
  }

  /** A member is served the rest of the log and the statement of every row, and nothing else. */
  lemma MembersAreServedAll(w: World, g: GroupId, me: Peer, shelf: Shelf, log: Log, peer: Peer, from: nat)
    requires Stores(w, g, shelf, log) && Cached(w, shelf, log) && me in log.Members() && peer in log.Members()
    ensures var served := Serve(w, me, g, shelf, peer, from);
            && served.Ok? && served.value.Some?
            && served.value.value.entries == Stretch(log, from, |log.entries|)
            && forall s :: s in served.value.value.standings <==>
                 exists p :: p in shelf.standings && shelf.standings[p].standing == s
  {
    StoredLogIsRead(w, g, shelf, log);
    forall s ensures s in StandingsOf(shelf.standings) <==>
        exists p :: p in shelf.standings && shelf.standings[p].standing == s
    {
      StandingsOfHolds(shelf.standings, s);
    }
  }

  /** Whoever is not a member is served no statement, and no entry past the one that took it out. */
  lemma OthersAreServedToTheirRemoval(w: World, g: GroupId, me: Peer, shelf: Shelf, log: Log, peer: Peer, from: nat)
    requires Stores(w, g, shelf, log) && Cached(w, shelf, log) && peer !in log.Members()
    ensures var served := Serve(w, me, g, shelf, peer, from);
            && served.Ok?
            && (served.value.Some? ==>
                  && served.value.value.standings == []
                  && exists last: nat ::
                       && LastWordAt(log.entries, peer, last)
                       && log.entries[last].body.op == Remove(Base58(peer))
                       && served.value.value.entries == Stretch(log, from, last + 1))
  {
    StoredLogIsRead(w, g, shelf, log);
    var removal := Departure(log.entries, peer);
    LastWordDecides(log.entries, peer);
    if removal.Some? {
      assert LastWordAt(log.entries, peer, removal.value);
      assert Between(log, from, removal.value + 1) == Stretch(log, from, removal.value + 1);
    }
  }

  /** A log cut just after the last removal of a peer does not list the peer. */
  lemma CutAtRemovalExcludes(w: World, ours: Log, them: Peer, cut: Log)
    requires ValidLog(w, ours) && ValidLog(w, cut)
    requires Departure(ours.entries, them).Some?
    requires |cut.entries| == Departure(ours.entries, them).value + 1
    requires AgreeBelow(cut, ours, |cut.entries|)
    ensures them !in cut.Members() && Departure(cut.entries, them) == Some(|cut.entries| - 1)
  {
    var removedAt := |cut.entries| - 1;
    LastWordDecides(ours.entries, them);
    assert LastWordAt(ours.entries, them, removedAt);
    AgreeingLogs(w, cut, ours, removedAt + 1);
    LastWordDecides(cut.entries, them);
    assert LastWordAt(cut.entries, them, removedAt);
    EveryPeerHasOneStatus(w, cut, them);
  }

  lemma TakingInTheCut(
      w: World, g: GroupId, them: Peer, theirs: Shelf, log: Log, ours: Log, limit: nat, now: int)
    requires Stores(w, g, theirs, log) && ValidLog(w, ours) && ours.id == g
    requires AgreeBelow(log, ours, |log.entries|) && |log.entries| <= limit <= |ours.entries|
    ensures var (after, r) := PutShelf(w, them, g, theirs, |log.entries|, Between(ours, |log.entries|, limit), [], now);
            && r.Ok?
            && Stores(w, g, after, Splice(log, ours, limit)) && Cached(w, after, Splice(log, ours, limit))
  {
    PutOfServedEntries(w, g, theirs, log, ours, limit);
    var es := Between(ours, |log.entries|, limit);
    PlanPutIsSound(w, g, theirs, log, |log.entries|, es);
    CommitPutCaches(w, them, g, theirs, log, PlanPut(w, g, theirs, |log.entries|, es).value, [], now);
  }

  /** `after` holds a log that extends `log`, runs exactly to the last removal of `them` in `ours`,
      agrees with `ours` so far and no longer lists `them`. */
  ghost predicate EndsAtRemoval(w: World, g: GroupId, after: Shelf, log: Log, ours: Log, them: Peer) {
    exists next ::
      && Stores(w, g, after, next) && Extends(next, log)
      && Departure(ours.entries, them) == Some(|next.entries| - 1)
      && AgreeBelow(next, ours, |next.entries|)
      && them !in next.Members() && them !in after.members
  }

  lemma CutEndsAtRemoval(
      w: World, g: GroupId, after: Shelf, log: Log, ours: Log, them: Peer, next: Log)
    requires Stores(w, g, after, next) && Cached(w, after, next) && Extends(next, log)
    requires ValidLog(w, ours) && Departure(ours.entries, them) == Some(|next.entries| - 1)
    requires AgreeBelow(next, ours, |next.entries|)
    ensures EndsAtRemoval(w, g, after, log, ours, them)
  {
    CutAtRemovalExcludes(w, ours, them, next);
  }

  lemma TakingInTheRemoval(
      w: World, g: GroupId, them: Peer, theirs: Shelf, log: Log, ours: Log, limit: nat, now: int)
    requires Stores(w, g, theirs, log) && ValidLog(w, ours) && ours.id == g
    requires Departure(ours.entries, them) == Some(limit - 1)
    requires AgreeBelow(log, ours, |log.entries|) && |log.entries| <= limit
    ensures var (after, r) := PutShelf(w, them, g, theirs, |log.entries|, Between(ours, |log.entries|, limit), [], now);
            r.Ok? && EndsAtRemoval(w, g, after, log, ours, them)
  {
    LastWordDecides(ours.entries, them);
    assert LastWordAt(ours.entries, them, limit - 1);
    SpliceIsValid(w, log, ours, limit);
    TakingInTheCut(w, g, them, theirs, log, ours, limit, now);
    var after := PutShelf(w, them, g, theirs, |log.entries|, Between(ours, |log.entries|, limit), [], now).0;
    CutEndsAtRemoval(w, g, after, log, ours, them, Splice(log, ours, limit));
  }

  /** A former member who takes in what a member serves it: its log then runs exactly to its last
      removal, is valid, agrees with the member's log so far and no longer lists it. */
  lemma FormerMemberLearnsOnlyItsRemoval(
      w: World, g: GroupId, me: Peer, shelf: Shelf, ours: Log, them: Peer, theirs: Shelf, log: Log, now: int)
    requires Stores(w, g, shelf, ours) && me in shelf.members
    requires them !in shelf.members && Departure(ours.entries, them).Some?
    requires Stores(w, g, theirs, log)
    requires AgreeBelow(log, ours, |log.entries|) && |log.entries| <= Departure(ours.entries, them).value + 1
    ensures var served := Serve(w, me, g, shelf, them, |log.entries|);
            && served.Ok? && served.value.Some? && served.value.value.standings == []
            && var (after, r) := PutShelf(w, them, g, theirs, |log.entries|, served.value.value.entries, [], now);
               r.Ok? && EndsAtRemoval(w, g, after, log, ours, them)
  {
    var limit := Departure(ours.entries, them).value + 1;
    ServesUpToRemoval(w, g, me, shelf, ours, them, |log.entries|);
    assert Serve(w, me, g, shelf, them, |log.entries|).value.value.entries == Between(ours, |log.entries|, limit);
    TakingInTheRemoval(w, g, them, theirs, log, ours, limit, now);
  }
}
