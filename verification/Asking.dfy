/** Which fetches an answer of heads leads to, said of the groups and not of the steps
    (crates/ac-groups/src/sync.rs). */
module Asking {
  import opened Base
  import opened Wire
  import opened Memberships
  import opened Chains
  import opened Tables
  import opened Convergence
  import opened Exchange
  import opened Slots

  /** Where the stored log of a group ends. */
  function EndIn(db: Db, g: GroupId): nat {
    match At(db, g).row
    case Some(row) => row.headSeq
    case None => 0
  }

  /** From `s` on, exactly these groups are wanted of this peer: each is then being fetched or queued, unless
      the queue is full; what is asked for, and what is queued, is wanted; every fetch begins where our log
      ends and is given half a minute; and what was under way or queued before stays. */
  ghost predicate Asks(
      s: Slots, after: Slots, actions: seq<GroupAction>, db: Db, peer: Peer, wanted: set<GroupId>, clock: int)
  {
    && Keeps(s, after) && s.deferred <= after.deferred
    && (forall g :: g in wanted ==> g in after.inflight || Queued(after, g) || |after.deferred| == 256)
    && (forall i :: 0 <= i < |actions| ==> AskedOf(s, after, actions[i], db, peer, wanted, clock))
    && (forall i, j :: 0 <= i < j < |actions| ==> actions[i].group != actions[j].group)
    && (forall g :: g in after.inflight && g !in s.inflight ==> Fetch(peer, g, EndIn(db, g)) in actions)
    && (forall i :: |s.deferred| <= i < |after.deferred| ==>
          after.deferred[i].0 == peer && after.deferred[i].1 in wanted)
  }

  ghost predicate AskedOf(
      s: Slots, after: Slots, action: GroupAction, db: Db, peer: Peer, wanted: set<GroupId>, clock: int)
  {
    var g := action.group;
    && g in wanted && g !in s.inflight && action == Fetch(peer, g, EndIn(db, g))
    && g in after.inflight && after.inflight[g] == InFlight(peer, EndIn(db, g), clock + 30)
  }

  lemma FetchingAsks(s: Slots, db: Db, peer: Peer, g: GroupId, clock: int)
    requires Bounded(s) && (Busy(s) || !Queued(s, g))
    ensures var r := Fetching(s, peer, g, HeadSeqOf(db, g), clock);
            Asks(s, r.0, r.1, db, peer, {g}, clock)
  {
    FetchingKeeps(s, peer, g, HeadSeqOf(db, g), clock);
  }

  lemma AsksThen(
      s: Slots, mid: Slots, first: seq<GroupAction>, some: set<GroupId>, after: Slots, second: seq<GroupAction>,
      others: set<GroupId>, db: Db, peer: Peer, clock: int)
    requires Asks(s, mid, first, db, peer, some, clock) && Asks(mid, after, second, db, peer, others, clock)
    requires Bounded(after)
    ensures Asks(s, after, first + second, db, peer, some + others, clock)
  {
    forall i, j | 0 <= i < j < |first + second| ensures (first + second)[i].group != (first + second)[j].group {
      if i < |first| <= j {
        assert AskedOf(s, mid, first[i], db, peer, some, clock);
        assert AskedOf(mid, after, second[j - |first|], db, peer, others, clock);
      }
    }
    forall g | g in some ensures g in after.inflight || Queued(after, g) || |after.deferred| == 256 {
      if Queued(mid, g) {
        var i :| 0 <= i < |mid.deferred| && mid.deferred[i].1 == g;
        assert after.deferred[i] == mid.deferred[i];
      }
    }
  }

  lemma SomethingIsWanted(
      s: Slots, after: Slots, actions: seq<GroupAction>, db: Db, peer: Peer, wanted: set<GroupId>, clock: int)
    requires Asks(s, after, actions, db, peer, wanted, clock)
    requires actions != [] || |after.deferred| > |s.deferred|
    ensures wanted != {}
  {
    if actions != [] {
      assert AskedOf(s, after, actions[0], db, peer, wanted, clock);
    } else {
      assert after.deferred[|s.deferred|].1 in wanted;
    }
  }

  lemma AskingForNothing(
      s: Slots, after: Slots, actions: seq<GroupAction>, db: Db, peer: Peer, clock: int)
    requires Asks(s, after, actions, db, peer, {}, clock)
    ensures after == s && actions == []
  {
    if actions != [] || |after.deferred| > |s.deferred| {
      SomethingIsWanted(s, after, actions, db, peer, {}, clock);
      assert false;
    }
    assert after.inflight == s.inflight;
    assert after.deferred == s.deferred;
  }

  /** A head tells of a group there is no row of, of entries past the end of our log, or of other statements
      than we hold. */
  predicate NewsTo(row: Option<GroupRow>, head: GroupHead) {
    row.None? || head.headSeq > row.value.headSeq || head.standings != row.value.digest
  }

  function News(db: Db, heads: seq<GroupHead>): set<GroupId> {
    set i | 0 <= i < |heads| && NewsTo(At(db, heads[i].group).row, heads[i]) :: heads[i].group
  }

  /** Of the groups named, exactly those of which the heads have news are asked for. */
  lemma {:induction false} HeadsAreHeeded(s: Slots, db: Db, peer: Peer, heads: seq<GroupHead>, clock: int)
    requires Bounded(s) && Busy(s)
    ensures var r := FetchingHeads(s, db, peer, heads, clock);
            Asks(s, r.0, r.1, db, peer, News(db, heads), clock)
    decreases |heads|
  {
    if heads != [] {
      var r := Heeding(s, db, peer, heads[0], clock);
      var now := if NewsTo(At(db, heads[0].group).row, heads[0]) then {heads[0].group} else {};
      FetchingKeeps(s, peer, heads[0].group, HeadSeqOf(db, heads[0].group), clock);
      FetchingAsks(s, db, peer, heads[0].group, clock);
      var rest := FetchingHeads(r.0, db, peer, heads[1..], clock);
      HeadsAreHeeded(r.0, db, peer, heads[1..], clock);
      FetchingHeadsKeeps(r.0, db, peer, heads[1..], clock);
      NewsOfFirst(db, heads);
      AsksThen(s, r.0, r.1, now, rest.0, rest.1, News(db, heads[1..]), db, peer, clock);
    }
  }

  lemma NewsOfFirst(db: Db, heads: seq<GroupHead>)
    requires heads != []
    ensures News(db, heads)
            == (if NewsTo(At(db, heads[0].group).row, heads[0]) then {heads[0].group} else {}) + News(db, heads[1..])
  {
    var rest := heads[1..];
    assert forall i :: 0 <= i < |rest| ==> rest[i] == heads[i + 1];
    assert forall i :: 0 < i < |heads| ==> heads[i] == rest[i - 1];
  }

  function AllOf(groups: seq<GroupId>): set<GroupId> {
    set g | g in groups
  }

  lemma AllOfFirst(groups: seq<GroupId>)
    requires groups != []
    ensures AllOf(groups) == {groups[0]} + AllOf(groups[1..])
  {
    assert groups == [groups[0]] + groups[1..];
  }

  /** Groups the peer did not name are all asked for. */
  lemma {:induction false} GroupsAreAskedFor(s: Slots, db: Db, peer: Peer, groups: seq<GroupId>, clock: int)
    requires Bounded(s) && Busy(s)
    ensures var r := FetchingGroups(s, db, peer, groups, clock);
            Asks(s, r.0, r.1, db, peer, AllOf(groups), clock)
    decreases |groups|
  {
    if groups != [] {
      var r := Fetching(s, peer, groups[0], HeadSeqOf(db, groups[0]), clock);
      FetchingKeeps(s, peer, groups[0], HeadSeqOf(db, groups[0]), clock);
      FetchingAsks(s, db, peer, groups[0], clock);
      var rest := FetchingGroups(r.0, db, peer, groups[1..], clock);
      GroupsAreAskedFor(r.0, db, peer, groups[1..], clock);
      FetchingGroupsKeeps(r.0, db, peer, groups[1..], clock);
      AsksThen(s, r.0, r.1, {groups[0]}, rest.0, rest.1, AllOf(groups[1..]), db, peer, clock);
      AllOfFirst(groups);
    }
  }

  /** The heads that count: the first 128 of an answer. */
  function Counting(heads: seq<GroupHead>): seq<GroupHead> {
    if |heads| <= 128 then heads else heads[..128]
  }

  /** Held groups that count the peer in and that none of its heads is of. */
  function Unnamed(db: Db, peer: Peer, heads: seq<GroupHead>): set<GroupId> {
    set g | g in db && db[g].row.Some? && peer in db[g].members && forall i :: 0 <= i < |heads| ==> heads[i].group != g
  }

  const IDLE := Slots(map[], [])

  /** Two members whose logs agree, each told the other's head, ask each other for nothing exactly when they
      have the same log and their members have said the same things. */
  lemma NeitherAsksExactlyInAgreement(
      w: World, g: GroupId, meA: Peer, ours: Db, la: Log, meB: Peer, theirs: Db, lb: Log, clock: int)
    requires SelfDelimiting(w) && Agree(la, lb)
    requires Healthy(w, g, At(ours, g), la) && Healthy(w, g, At(theirs, g), lb)
    ensures var (a, b) := (At(ours, g), At(theirs, g));
            && FetchingHeads(IDLE, ours, meB, [HeadOf(g, b.row.value)], clock).1 == []
            && FetchingHeads(IDLE, theirs, meA, [HeadOf(g, a.row.value)], clock).1 == []
            <==>
            && |la.entries| == |lb.entries| && AgreeBelow(la, lb, |la.entries|)
            && Said(a.members.Keys, ReadStandings(w, a.standings))
               == Said(b.members.Keys, ReadStandings(w, b.standings))
  {
    var (a, b) := (At(ours, g), At(theirs, g));
    SilenceIsAgreement(w, g, a, la, b, lb);
    OneHeadAsks(ours, meB, HeadOf(g, b.row.value), clock);
    OneHeadAsks(theirs, meA, HeadOf(g, a.row.value), clock);
  }

  lemma OneHeadAsks(db: Db, peer: Peer, head: GroupHead, clock: int)
    ensures FetchingHeads(IDLE, db, peer, [head], clock).1 == [] <==> !NewsTo(At(db, head.group).row, head)
  {
    HeadsAreHeeded(IDLE, db, peer, [head], clock);
    var r := FetchingHeads(IDLE, db, peer, [head], clock);
    NewsOfFirst(db, [head]);
    if !NewsTo(At(db, head.group).row, head) {
      assert News(db, [head]) == {};
      AskingForNothing(IDLE, r.0, r.1, db, peer, clock);
    } else {
      assert head.group in News(db, [head]);
      assert r.0.inflight == map[] || r.1 != [];
    }
  }
}
