/** One group, written out in full: its admin 0 adds 1, 2 and 5, removes 5 and adds it again. It shows that
    what `Sync` and `Divergence` speak of does happen. */
module Witness {
  import opened Base
  import opened Wire
  import opened Standings
  import opened Memberships
  import opened Chains
  import opened ChainLaws
  import opened Tables
  import opened StoreLaws
  import opened Runs
  import opened Exchange
  import opened Gossip
  import opened Divergence
  import opened Sync

  const GROUP := OfGenesis([0])

  function OpAt(i: nat): Op {
    if i == 0 then Create(Base58(0), [], [0x67])
    else if i == 1 then Add(Base58(1))
    else if i == 2 then Add(Base58(2))
    else if i == 4 then Remove(Base58(5))
    else Add(Base58(5))
  }

  /** Entry `i` is encoded as the single byte `i`. */
  function BodyAt(i: Byte): EntryBody {
    if i == 0 then EntryBody(Zero, 0, NoParent, 0, OpAt(0)) else EntryBody(GROUP, i, OfBody([i - 1]), 0, OpAt(i))
  }

  const WORD := StandingBody(GROUP, Base58(5), 1, In, [], 0)

  /** A world that can encode the six entries and one statement of 5, and in which every signature holds. */
  function SmallWorld(): World {
    World(
      (bytes: Bytes) => if |bytes| == 1 && bytes[0] < 6 then Some(BodyAt(bytes[0])) else None,
      (body: EntryBody) => if body.seqNo < 6 && body == BodyAt(body.seqNo) then Some([body.seqNo]) else None,
      (bytes: Bytes) => if bytes == [9] then Some(WORD) else None,
      (body: StandingBody) => if body == WORD then Some([9]) else None,
      (key, bytes) => Some([]),
      (peer, body, signature) => true,
      peer => true,
      name => Some(name),
      peer => [])
  }

  function VerifiedAt(i: Byte): Verified {
    Verified(Entry([i], []), BodyAt(i), OfBody([i]))
  }

  function SmallLog(): Log {
    Log(GROUP, 0, [VerifiedAt(0), VerifiedAt(1), VerifiedAt(2), VerifiedAt(3), VerifiedAt(4), VerifiedAt(5)])
  }

  lemma SmallWorldDecodes()
    ensures EncodingsDecode(SmallWorld())
  {
  }

  /** Who is in after each entry. */
  lemma SmallMembers()
    ensures var log := SmallLog();
            && MembersAt(log, 1).Keys == {0} && MembersAt(log, 2).Keys == {0, 1} && MembersAt(log, 3).Keys == {0, 1, 2}
            && MembersAt(log, 4).Keys == {0, 1, 2, 5} && MembersAt(log, 5).Keys == {0, 1, 2}
            && MembersAt(log, 6).Keys == {0, 1, 2, 5}
  {
    var es := SmallLog().entries;
    assert es[..0] == [];
    assert es[..1][..0] == es[..0] && es[..2][..1] == es[..1] && es[..3][..2] == es[..2];
    assert es[..4][..3] == es[..3] && es[..5][..4] == es[..4] && es[..6][..5] == es[..5];
    assert Fold(es[..1]).Keys == {0};
    assert Fold(es[..2]).Keys == {0, 1};
    assert Fold(es[..3]).Keys == {0, 1, 2};
    assert Fold(es[..4]).Keys == {0, 1, 2, 5};
    assert Fold(es[..5]).Keys == {0, 1, 2};
    assert Fold(es[..6]).Keys == {0, 1, 2, 5};
  }

  lemma SmallOpsArePermitted(i: nat)
    requires 0 < i < 6
    ensures Permitted(SmallWorld(), 0, Fold(SmallLog().entries[..i]).Keys, OpAt(i))
  {
    if i == 4 {
      SmallMembers();
      assert MembersAt(SmallLog(), 4) == Fold(SmallLog().entries[..4]);
    }
  }

  lemma SmallEntryFollows(i: nat)
    requires 0 < i < 6
    ensures ChainLaws.Follows(SmallWorld(), SmallLog(), i)
  {
    var (w, log) := (SmallWorld(), SmallLog());
    SmallOpsArePermitted(i);
    assert log.entries[i] == VerifiedAt(i) && log.entries[i - 1] == VerifiedAt(i - 1);
    assert w.EntryBodyOf(Entry([i], [])) == Some(BodyAt(i));
  }

  lemma SmallLogIsValid()
    ensures ValidLog(SmallWorld(), SmallLog()) && SmallLog().id == GROUP
  {
    var (w, log) := (SmallWorld(), SmallLog());
    assert log.entries[0] == VerifiedAt(0) && w.EntryBodyOf(Entry([0], [])) == Some(BodyAt(0));
    forall i | 0 < i < |log.entries| ensures ChainLaws.Follows(w, log, i) {
      SmallEntryFollows(i);
    }
  }

  lemma FiveReturns()
    ensures CanReturn(SmallLog(), 5)
  {
    SmallMembers();
    assert ReturnsAmong(SmallLog(), 5, 4, 5, 6, 0, 1, 2);
  }

  /** Two nodes of this group can have heard the same and hold different statements of 5. */
  lemma StatementsCanBeLost()
    ensures ValidLog(SmallWorld(), SmallLog()) && CanDiverge(SmallWorld(), GROUP, SmallLog(), 5)
  {
    SmallLogIsValid();
    FiveReturns();
    assert Speaks(SmallWorld(), GROUP, 5, Standing([9], []));
    DivergesExactly(SmallWorld(), GROUP, SmallLog(), 5);
  }

  lemma SmallShelf() returns (shelf: Shelf)
    ensures Healthy(SmallWorld(), GROUP, shelf, SmallLog().Upto(4)) && shelf.members.Keys == {0, 1, 2, 5}
    ensures shelf.row.value.admin == 0 && shelf.row.value.headSeq == 4 && shelf.row.value.headHash == OfBody([3])
  {
    shelf := ShelfOf(SmallWorld(), SmallLog().Upto(4), map[]);
    SmallLogIsValid();
    SmallMembers();
    ShelfOfFollows(SmallWorld(), GROUP, SmallLog(), 4, map[]);
  }

  /** The admin of this group, told that 5 has left, signs its removal and takes it out. */
  lemma DeparturesCanBeRatified() returns (db: Db)
    ensures EncodingsDecode(SmallWorld()) && Sound(SmallWorld(), db) && Administers(0, db, GROUP)
    ensures RatifiedOut(SmallWorld(), 0, db, GROUP, [5], 0) == {5}
    ensures At(db, GROUP).members.Keys == {0, 1, 2, 5}
    ensures At(Ratified(SmallWorld(), 0, db, GROUP, [5], 0), GROUP).members.Keys == {0, 1, 2, 5} - {5}
  {
    SmallWorldDecodes();
    var shelf := SmallShelf();
    SmallRemovalIsSignable(shelf);
    OneDepartureIsRatified(SmallWorld(), 0, GROUP, shelf, SmallLog().Upto(4), 5, 0);
    db := map[GROUP := shelf];
  }

  lemma OneDepartureIsRatified(w: World, me: Peer, g: GroupId, shelf: Shelf, log: Log, p: Peer, at: int)
    requires EncodingsDecode(w) && Healthy(w, g, shelf, log) && shelf.row.value.admin == me
    requires p != me && p in shelf.members && Signable(w, me, RemovalBody(g, shelf, p, at))
    ensures var db := map[g := shelf];
            && Sound(w, db) && Administers(me, db, g) && At(db, g) == shelf
            && RatifiedOut(w, me, db, g, [p], at) == {p}
            && At(Ratified(w, me, db, g, [p], at), g).members.Keys == shelf.members.Keys - {p}
  {
    var db := map[g := shelf];
    OneShelfIsSound(w, g, shelf, log);
    OneRatifiedOut(w, me, db, g, p, at);
    DeparturesBecomeRemovals(w, me, db, g, [p], at);
  }

  lemma SmallRemovalIsSignable(shelf: Shelf)
    requires shelf.row.Some? && shelf.row.value.headSeq == 4 && shelf.row.value.headHash == OfBody([3])
    ensures Signable(SmallWorld(), 0, RemovalBody(GROUP, shelf, 5, 0))
  {
    assert RemovalBody(GROUP, shelf, 5, 0) == BodyAt(4);
    assert SmallWorld().EncodedEntry(BodyAt(4)) == Some([4]);
  }

  lemma OneRatifiedOut(w: World, me: Peer, db: Db, g: GroupId, p: Peer, at: int)
    requires p != me && p in At(db, g).members && At(db, g).row.Some?
    requires Signable(w, me, RemovalBody(g, At(db, g), p, at))
    ensures RatifiedOut(w, me, db, g, [p], at) == {p}
  {
    assert [p][1..] == [];
  }

  lemma OneShelfIsSound(w: World, g: GroupId, shelf: Shelf, log: Log)
    requires Healthy(w, g, shelf, log)
    ensures Sound(w, map[g := shelf])
  {
    forall h ensures SoundShelf(w, h, At(map[g := shelf], h)) {
    }
  }
}
