/** What an answer of catalogue heads leads to, said of the groups and not of the steps
    (crates/ac-files/src/sync.rs). */
module FileAsking {
  import opened Base
  import opened Wire
  import opened FileReads

  /** Where a peer's log of a group was last read to. */
  function ReadTo<C>(files: Files<C>, peer: Peer, g: GroupId): nat {
    if (peer, g) in files.cursors then files.cursors[(peer, g)] else 0
  }

  /** From `s` on, the catalogues of some groups were found to agree with this peer's and those of others to
      differ. Exactly the first are settled. Each of the others is then being read or queued, unless the queue
      is full; pages asked for, and reads queued, are of these; a read begins at the cursor, has not been
      taken back to the start and is given half a minute; and what was under way or queued before stays. */
  ghost predicate Heard<C>(
      s: Reads, after: Reads, actions: seq<FileAction>, files: Files<C>, peer: Peer, agreeing: set<GroupId>,
      differing: set<GroupId>, clock: int)
  {
    && Keeps(s, after) && s.deferred <= after.deferred
    && (forall g :: g in agreeing ==> Settled(peer, g) in actions)
    && (forall g :: g in differing ==>
          (peer, g) in after.inflight || (peer, g) in after.deferred || |after.deferred| == 16 * 128)
    && (forall i :: 0 <= i < |actions| ==> SaidOf(s, after, actions[i], files, peer, agreeing, differing, clock))
    && (forall pair :: pair in after.inflight && pair !in s.inflight ==>
          FetchChanges(pair.0, pair.1, ReadTo(files, pair.0, pair.1)) in actions)
    && (forall i :: |s.deferred| <= i < |after.deferred| ==>
          after.deferred[i].0 == peer && after.deferred[i].1 in differing)
  }

  ghost predicate SaidOf<C>(
      s: Reads, after: Reads, action: FileAction, files: Files<C>, peer: Peer, agreeing: set<GroupId>,
      differing: set<GroupId>, clock: int)
  {
    var pair := (peer, action.group);
    action.peer == peer &&
    match action
    case Settled(_, g) => g in agreeing
    case FetchChanges(_, g, from) =>
      && g in differing && pair !in s.inflight && from == ReadTo(files, peer, g)
      && pair in after.inflight && after.inflight[pair] == InFlight(from, false, clock + 30)
  }

  lemma ReadingIsHeard<C>(s: Reads, files: Files<C>, peer: Peer, g: GroupId, clock: int)
    requires Bounded(s) && (Busy(s) || (peer, g) !in s.deferred)
    ensures var r := Reading(s, (peer, g), files.Cursor((peer, g)), false, clock);
            Heard(s, r.0, r.1, files, peer, {}, {g}, clock)
  {
    ReadingKeeps(s, (peer, g), files.Cursor((peer, g)), false, clock);
  }

  lemma HeardThen<C>(
      s: Reads, mid: Reads, first: seq<FileAction>, agreeing: set<GroupId>, differing: set<GroupId>, after: Reads,
      second: seq<FileAction>, agreeing': set<GroupId>, differing': set<GroupId>, files: Files<C>, peer: Peer,
      clock: int)
    requires Heard(s, mid, first, files, peer, agreeing, differing, clock)
    requires Heard(mid, after, second, files, peer, agreeing', differing', clock)
    requires Bounded(after)
    ensures Heard(s, after, first + second, files, peer, agreeing + agreeing', differing + differing', clock)
  {
    var (settled, wanted) := (agreeing + agreeing', differing + differing');
    forall i | 0 <= i < |first + second|
      ensures SaidOf(s, after, (first + second)[i], files, peer, settled, wanted, clock)
    {
      if i < |first| {
        assert SaidOf(s, mid, first[i], files, peer, agreeing, differing, clock);
      } else {
        assert SaidOf(mid, after, second[i - |first|], files, peer, agreeing', differing', clock);
      }
    }
    forall g | g in differing
      ensures (peer, g) in after.inflight || (peer, g) in after.deferred || |after.deferred| == 16 * 128
    {
      if (peer, g) in mid.deferred {
        var i :| 0 <= i < |mid.deferred| && mid.deferred[i] == (peer, g);
        assert after.deferred[i] == mid.deferred[i];
      }
    }
  }

  /** The head is of a group shared with this peer, and its digest is that of our catalogue. */
  predicate Agrees<C>(lib: Library<C>, files: Files<C>, peer: Peer, sharing: set<Pair>, head: FileHead) {
    (peer, head.group) in sharing && OurDigest(lib, files, head.group) == head.digest
  }

  predicate Differs<C>(lib: Library<C>, files: Files<C>, peer: Peer, sharing: set<Pair>, head: FileHead) {
    (peer, head.group) in sharing && OurDigest(lib, files, head.group) != head.digest
  }

  function OurDigest<C>(lib: Library<C>, files: Files<C>, g: GroupId): Digest {
    lib.digest(if g in files.catalogues then files.catalogues[g] else lib.empty)
  }

  function Agreeing<C>(
      lib: Library<C>, files: Files<C>, peer: Peer, sharing: set<Pair>, heads: seq<FileHead>): set<GroupId> {
    set i | 0 <= i < |heads| && Agrees(lib, files, peer, sharing, heads[i]) :: heads[i].group
  }

  function Differing<C>(
      lib: Library<C>, files: Files<C>, peer: Peer, sharing: set<Pair>, heads: seq<FileHead>): set<GroupId> {
    set i | 0 <= i < |heads| && Differs(lib, files, peer, sharing, heads[i]) :: heads[i].group
  }

  lemma FirstHead<C>(lib: Library<C>, files: Files<C>, peer: Peer, sharing: set<Pair>, heads: seq<FileHead>)
    requires heads != []
    ensures Agreeing(lib, files, peer, sharing, heads)
            == (if Agrees(lib, files, peer, sharing, heads[0]) then {heads[0].group} else {})
               + Agreeing(lib, files, peer, sharing, heads[1..])
    ensures Differing(lib, files, peer, sharing, heads)
            == (if Differs(lib, files, peer, sharing, heads[0]) then {heads[0].group} else {})
               + Differing(lib, files, peer, sharing, heads[1..])
  {
    var rest := heads[1..];
    assert forall i :: 0 <= i < |rest| ==> rest[i] == heads[i + 1];
    assert forall i :: 0 < i < |heads| ==> heads[i] == rest[i - 1];
  }

  lemma OneHeadIsHeard<C>(
      s: Reads, lib: Library<C>, files: Files<C>, peer: Peer, head: FileHead, sharing: set<Pair>, clock: int)
    requires Bounded(s) && Busy(s)
    ensures var r := Naming(s, lib, files, peer, head, sharing, clock);
            && Bounded(r.0) && Busy(r.0)
            && Heard(s, r.0, r.1, files, peer,
                     if Agrees(lib, files, peer, sharing, head) then {head.group} else {},
                     if Differs(lib, files, peer, sharing, head) then {head.group} else {}, clock)
  {
    ReadingKeeps(s, (peer, head.group), files.Cursor((peer, head.group)), false, clock);
    ReadingIsHeard(s, files, peer, head.group, clock);
  }

  /** Shared groups are settled exactly where a head has our digest, and read exactly where one has another. */
  lemma {:induction false} HeadsAreHeard<C>(
      s: Reads, lib: Library<C>, files: Files<C>, peer: Peer, heads: seq<FileHead>, sharing: set<Pair>, clock: int)
    requires Bounded(s) && Busy(s)
    ensures var r := NamingHeads(s, lib, files, peer, heads, sharing, clock);
            Heard(s, r.0, r.1, files, peer, Agreeing(lib, files, peer, sharing, heads),
                  Differing(lib, files, peer, sharing, heads), clock)
    decreases |heads|
  {
    if heads != [] {
      var r := Naming(s, lib, files, peer, heads[0], sharing, clock);
      OneHeadIsHeard(s, lib, files, peer, heads[0], sharing, clock);
      var rest := NamingHeads(r.0, lib, files, peer, heads[1..], sharing, clock);
      HeadsAreHeard(r.0, lib, files, peer, heads[1..], sharing, clock);
      NamingHeadsKeeps(r.0, lib, files, peer, heads[1..], sharing, clock);
      FirstHead(lib, files, peer, sharing, heads);
      HeardThen(
        s, r.0, r.1, if Agrees(lib, files, peer, sharing, heads[0]) then {heads[0].group} else {},
        if Differs(lib, files, peer, sharing, heads[0]) then {heads[0].group} else {},
        rest.0, rest.1, Agreeing(lib, files, peer, sharing, heads[1..]),
        Differing(lib, files, peer, sharing, heads[1..]), files, peer, clock);
    }
  }
}
