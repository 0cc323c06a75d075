/** Signed statements that members make of themselves, and the order that decides between two of them
    (crates/ac-groups/src/standing.rs). */
module Standings {
  import opened Base
  import opened Wire

  const MAX_STANDING_BYTES := 1024

  datatype StandingError =
    | Malformed
    | Encode
    | Signing
    | StandingTooLarge(bytes: nat)
    | UnparseableSubject
    | SubjectKey(peer: PeerText)
    | BadSubjectSignature
    | StandingWrongGroup(found: GroupId)
    | BadUsername

  function AuthorStanding(
      w: World, key: Peer, group: GroupId, seqNo: U64, position: Position, username: Name, at: int)
      : Result<Standing, StandingError>
  {
    match w.Normalised(username)
    case None => Err(BadUsername)
    case Some(name) =>
      match w.EncodedStanding(StandingBody(group, Base58(key), seqNo, position, name, at))
      case None => Err(Encode)
      case Some(bytes) =>
        match w.Signature(key, bytes)
        case None => Err(Signing)
        case Some(signature) => Ok(Standing(bytes, signature))
  }

  /** One past the highest known, from 0 on; wrapping at 64 bits, as a release build adds. */
  function NextSeq(latestKnown: Option<U64>): U64 {
    match latestKnown
    case None => 1
    case Some(n) => (n + 1) % U64_LIMIT
  }

  /** What is authored next is higher than what is held, except past the last u64. */
  lemma NextSeqClimbs(n: U64)
    ensures n < NextSeq(Some(n)) <==> n != U64_LIMIT - 1
  {
  }

  function VerifyStanding(w: World, s: Standing, group: GroupId): Result<StandingBody, StandingError> {
    if s.WireLen() > MAX_STANDING_BYTES then Err(StandingTooLarge(s.WireLen()))
    else
      match w.StandingBodyOf(s)
      case None => Err(Malformed)
      case Some(body) =>
        if body.group != group then Err(StandingWrongGroup(body.group))
        else
          match Parse(body.peer)
          case None => Err(UnparseableSubject)
          case Some(peer) =>
            if !w.HasKey(peer) then Err(SubjectKey(body.peer))
            else if !w.Verifies(peer, s.body, s.signature) then Err(BadSubjectSignature)
            else if w.Normalised(body.username).None? then Err(BadUsername)
            else Ok(body)
  }

  // ---- what a verified statement is, without reference to the checks ----

  /** `p` itself made this statement about the group: it is of bounded size, its body names the group and
      `p` and a name in proper form, and `p`'s key signed it. */
  predicate SaidBy(w: World, g: GroupId, p: Peer, s: Standing, body: StandingBody) {
    && |s.body| + |s.signature| <= 1024
    && w.StandingBodyOf(s) == Some(body)
    && body.group == g && body.peer == Base58(p)
    && w.HasKey(p) && w.Verifies(p, s.body, s.signature)
    && w.Normalised(body.username).Some?
  }

  /** A statement passes as one of this group exactly when the peer it names made it. */
  lemma VerifyingIsSaying(w: World, g: GroupId, s: Standing, body: StandingBody)
    ensures VerifyStanding(w, s, g) == Ok(body) <==> exists p :: SaidBy(w, g, p, s, body)
    ensures forall p, q :: SaidBy(w, g, p, s, body) && SaidBy(w, g, q, s, body) ==> p == q
  {
    if Parse(body.peer).Some? && VerifyStanding(w, s, g) == Ok(body) {
      assert SaidBy(w, g, Parse(body.peer).value, s, body);
    }
  }

  /** A statement that does not pass breaks the rule that the refusal names. */
  lemma RefusedStatementsAreFaulty(w: World, g: GroupId, s: Standing)
    requires VerifyStanding(w, s, g).Err?
    ensures var decoded := w.StandingBodyOf(s);
            match VerifyStanding(w, s, g).error
            case StandingTooLarge(bytes) => bytes == |s.body| + |s.signature| > 1024
            case Malformed => decoded.None?
            case StandingWrongGroup(found) => decoded.Some? && found == decoded.value.group != g
            case UnparseableSubject => decoded.Some? && decoded.value.peer.Unparseable?
            case SubjectKey(peer) => decoded.Some? && peer.Base58? && decoded.value.peer == peer && !w.HasKey(peer.peer)
            case BadSubjectSignature =>
              && decoded.Some? && decoded.value.peer.Base58?
              && !w.Verifies(decoded.value.peer.peer, s.body, s.signature)
            case BadUsername => decoded.Some? && w.Normalised(decoded.value.username).None?
            case _ => false
  {
  }

  /** The order on statements: by seq, and between equal seqs the body that is less as a byte string. */
  predicate Wins(mine: (U64, Bytes), theirs: (U64, Bytes)) {
    mine.0 > theirs.0 || (mine.0 == theirs.0 && LexLess(mine.1, theirs.1))
  }

  /** `Wins` is a strict total order on statements. */
  lemma WinsIsStrictTotal(a: (U64, Bytes), b: (U64, Bytes), c: (U64, Bytes))
    ensures !Wins(a, a)
    ensures !(Wins(a, b) && Wins(b, a))
    ensures a != b ==> Wins(a, b) || Wins(b, a)
    ensures Wins(a, b) && Wins(b, c) ==> Wins(a, c)
  {
    LexTrichotomy(a.1, b.1);
    if LexLess(a.1, b.1) && LexLess(b.1, c.1) {
      LexTransitive(a.1, b.1, c.1);
    }
  }

  /** A statement together with the fields of its decoded body. */
  datatype Held = Held(standing: Standing, seqNo: U64, position: Position, username: Name) {
    function Rank(): (U64, Bytes) {
      (seqNo, standing.body)
    }
  }

  type Register = map<Peer, Held>

  /** The table after `peer`'s statement `h` has been offered to it. */
  function Record(m: Register, peer: Peer, h: Held): Register {
    if peer in m && !Wins(h.Rank(), m[peer].Rank()) then m else m[peer := h]
  }

  class StandingSet {
    var held: Register

    constructor ()
      ensures held == map[]
    {
      held := map[];
    }

    method Insert(peer: Peer, standing: Standing, seqNo: U64, position: Position, username: Name)
      returns (won: bool)
      modifies this
      ensures held == Record(old(held), peer, Held(standing, seqNo, position, username))
      ensures won <==> peer !in old(held) || Wins((seqNo, standing.body), old(held)[peer].Rank())
    {
      if peer in held && !Wins((seqNo, standing.body), held[peer].Rank()) {
        return false;
      }
      held := held[peer := Held(standing, seqNo, position, username)];
      return true;
    }
  }

  // ---- the table is a join ----

  /** One call of `StandingSet.Insert`. */
  datatype Offer = Offer(peer: Peer, held: Held)

  function RecordAll(m: Register, offers: seq<Offer>): Register {
    if offers == [] then m
    else
      var last := |offers| - 1;
      Record(RecordAll(m, offers[..last]), offers[last].peer, offers[last].held)
  }

  /** What is held is what the held body says, so equal bodies are equal statements. */
  ghost predicate Faithful(w: World, h: Held) {
    match w.StandingBodyOf(h.standing)
    case None => false
    case Some(body) => body.seqNo == h.seqNo && body.position == h.position && body.username == h.username
  }

  ghost predicate FaithfulTable(w: World, m: Register) {
    forall p :: p in m ==> Faithful(w, m[p])
  }

  /** The two tables hold the same statement of each peer. Signature bytes may differ. */
  ghost predicate SameStatements(a: Register, b: Register) {
    && a.Keys == b.Keys
    && (forall p :: p in a ==>
          && a[p].standing.body == b[p].standing.body
          && a[p].seqNo == b[p].seqNo
          && a[p].position == b[p].position
          && a[p].username == b[p].username)
  }

  /** Whether a statement of `p` with this body reached the table, first or last. */
  ghost predicate Offered(m: Register, offers: seq<Offer>, p: Peer, rank: (U64, Bytes)) {
    || (p in m && m[p].Rank() == rank)
    || (exists i :: 0 <= i < |offers| && offers[i].peer == p && offers[i].held.Rank() == rank)
  }

  /** Each peer ends up holding the greatest statement of it that was ever offered. */
  lemma {:induction false} RecordAllHoldsTheMaximum(m: Register, offers: seq<Offer>, p: Peer)
    ensures p in RecordAll(m, offers) <==> exists rank :: Offered(m, offers, p, rank)
    ensures p in RecordAll(m, offers) ==>
              var top := RecordAll(m, offers)[p].Rank();
              && Offered(m, offers, p, top)
              && (forall rank :: Offered(m, offers, p, rank) && rank != top ==> Wins(top, rank))
  {
    if offers == [] {
      if p in m {
        assert Offered(m, offers, p, m[p].Rank());
      }
    } else {
      var last := |offers| - 1;
      var o := offers[last];
      var before := RecordAll(m, offers[..last]);
      RecordAllHoldsTheMaximum(m, offers[..last], p);
      assert forall rank :: Offered(m, offers, p, rank) <==>
          Offered(m, offers[..last], p, rank) || (o.peer == p && o.held.Rank() == rank) by {
        forall rank ensures Offered(m, offers, p, rank) <==>
            Offered(m, offers[..last], p, rank) || (o.peer == p && o.held.Rank() == rank)
        {
          assert forall i :: 0 <= i < last ==> offers[..last][i] == offers[i];
        }
      }
      if o.peer == p {
        assert Offered(m, offers, p, o.held.Rank());
        if p in before {
          var top := RecordAll(m, offers)[p].Rank();
          forall rank | Offered(m, offers, p, rank) && rank != top
            ensures Wins(top, rank)
          {
            WinsIsStrictTotal(o.held.Rank(), before[p].Rank(), rank);
            WinsIsStrictTotal(before[p].Rank(), o.held.Rank(), rank);
          }
        }
      }
    }
  }

  lemma {:induction false} RecordAllIsFaithful(w: World, m: Register, offers: seq<Offer>)
    requires FaithfulTable(w, m)
    requires forall i :: 0 <= i < |offers| ==> Faithful(w, offers[i].held)
    ensures FaithfulTable(w, RecordAll(m, offers))
  {
    if offers != [] {
      RecordAllIsFaithful(w, m, offers[..|offers| - 1]);
    }
  }

  /** Two tables that are offered the same statements, in whatever order and with whatever
      repeats, end in the same statements. */
  lemma InsertOrderDoesNotMatter(
      w: World, m: Register, m': Register, offers: seq<Offer>, offers': seq<Offer>)
    requires FaithfulTable(w, m) && FaithfulTable(w, m')
    requires forall i :: 0 <= i < |offers| ==> Faithful(w, offers[i].held)
    requires forall i :: 0 <= i < |offers'| ==> Faithful(w, offers'[i].held)
    requires forall p, rank :: Offered(m, offers, p, rank) <==> Offered(m', offers', p, rank)
    ensures SameStatements(RecordAll(m, offers), RecordAll(m', offers'))
  {
    var a, b := RecordAll(m, offers), RecordAll(m', offers');
    RecordAllIsFaithful(w, m, offers);
    RecordAllIsFaithful(w, m', offers');
    forall p ensures p in a <==> p in b
             ensures p in a ==> a[p].Rank() == b[p].Rank()
    {
      RecordAllHoldsTheMaximum(m, offers, p);
      RecordAllHoldsTheMaximum(m', offers', p);
      if p in a && p in b && a[p].Rank() != b[p].Rank() {
        WinsIsStrictTotal(a[p].Rank(), b[p].Rank(), a[p].Rank());
      }
    }
    forall p | p in a ensures a[p].position == b[p].position && a[p].username == b[p].username {
      assert Faithful(w, a[p]) && Faithful(w, b[p]);
    }
  }
}
