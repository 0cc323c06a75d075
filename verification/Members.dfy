/** The roster a chain leads to, the names on it, and one digest over all that its members have stated
    (crates/ac-groups/src/members.rs). */
module Memberships {
  import opened Base
  import opened Wire
  import opened Standings

  datatype Member = Member(username: Option<Name>, isAdmin: bool)

  type Roster = map<Peer, Member>

  function Joined(m: Roster, peer: Peer, isAdmin: bool): Roster {
    if peer in m then m else m[peer := Member(None, isAdmin)]
  }

  function UsernameIn(standings: Register, peer: Peer): Option<Name> {
    if peer in standings then Some(standings[peer].username) else None
  }

  function Named(m: Roster, standings: Register): Roster {
    map p | p in m :: Member(UsernameIn(standings, p), m[p].isAdmin)
  }

  // ---- the digest ----

  /** What the digest covers of one member. */
  datatype Statement = Statement(peer: Peer, seqNo: U64, position: Position, username: Name)

  /** What those of `peers` who have spoken said, by ascending peer. */
  function Said(peers: set<Peer>, standings: Register): seq<Statement> {
    if peers == {} then []
    else
      var p := Least(peers);
      (if p in standings
       then [Statement(p, standings[p].seqNo, standings[p].position, standings[p].username)]
       else []) +
      Said(peers - {p}, standings)
  }

  function LittleEndian(n: nat, width: nat): (bytes: Bytes)
    ensures |bytes| == width
  {
    if width == 0 then [] else [n % 0x100] + LittleEndian(n / 0x100, width - 1)
  }

  function Tag(position: Position): Byte {
    match position
    case Unanswered => 0
    case In => 1
    case Out => 2
  }

  function EncodeOne(w: World, s: Statement): Bytes {
    w.PeerIdBytes(s.peer) + LittleEndian(s.seqNo, 8) + [Tag(s.position)] +
    LittleEndian(|s.username|, 8) + s.username
  }

  function EncodeAll(w: World, said: seq<Statement>): Bytes {
    if said == [] then [] else EncodeOne(w, said[0]) + EncodeAll(w, said[1..])
  }

  function DigestOf(w: World, m: Roster, standings: Register): Digest {
    Sha256([2] + EncodeAll(w, Said(m.Keys, standings)))
  }

  class Members {
    var byPeer: Roster

    constructor ()
      ensures byPeer == map[]
    {
      byPeer := map[];
    }

    method Insert(peer: Peer, isAdmin: bool)
      modifies this
      ensures byPeer == Joined(old(byPeer), peer, isAdmin)
    {
      if peer !in byPeer {
        byPeer := byPeer[peer := Member(None, isAdmin)];
      }
    }

    method Remove(peer: Peer) returns (was: bool)
      modifies this
      ensures byPeer == old(byPeer) - {peer}
      ensures was <==> peer in old(byPeer)
    {
      was := peer in byPeer;
      byPeer := byPeer - {peer};
    }

    method NameFrom(standings: Register)
      modifies this
      ensures byPeer == Named(old(byPeer), standings)
    {
      var todo := byPeer.Keys;
      while todo != {}
        invariant todo <= byPeer.Keys
        invariant byPeer.Keys == old(byPeer).Keys
        invariant forall p :: p in byPeer ==>
                    byPeer[p] == if p in todo then old(byPeer)[p] else Named(old(byPeer), standings)[p]
      {
        var p := Least(todo);
        byPeer := byPeer[p := byPeer[p].(username := UsernameIn(standings, p))];
        todo := todo - {p};
      }
    }

    method StandingsDigest(w: World, standings: Register) returns (digest: Digest)
      ensures digest == DigestOf(w, byPeer, standings)
    {
      var fed: Bytes := [2];
      var todo := byPeer.Keys;
      while todo != {}
        invariant fed + EncodeAll(w, Said(todo, standings)) == [2] + EncodeAll(w, Said(byPeer.Keys, standings))
      {
        var p := Least(todo);
        var piece: Bytes := [];
        if p in standings {
          var h := standings[p];
          piece := w.PeerIdBytes(p) + LittleEndian(h.seqNo, 8) + [Tag(h.position)] +
                   LittleEndian(|h.username|, 8) + h.username;
        }
        FeedingOne(w, todo, standings, fed, piece);
        fed := fed + piece;
        todo := todo - {p};
      }
      return Sha256(fed);
    }
  }

  lemma FeedingOne(w: World, todo: set<Peer>, standings: Register, fed: Bytes, piece: Bytes)
    requires todo != {}
    requires var p := Least(todo);
             piece
             == if p in standings
                then EncodeOne(w, Statement(p, standings[p].seqNo, standings[p].position, standings[p].username))
                else []
    ensures fed + EncodeAll(w, Said(todo, standings))
            == fed + piece + EncodeAll(w, Said(todo - {Least(todo)}, standings))
  {
    var p := Least(todo);
    var rest := Said(todo - {p}, standings);
    if p in standings {
      var s := Statement(p, standings[p].seqNo, standings[p].position, standings[p].username);
      assert ([s] + rest)[1..] == rest;
      assert EncodeAll(w, [s] + rest) == EncodeOne(w, s) + EncodeAll(w, rest);
    } else {
      assert Said(todo, standings) == rest;
    }
    Regrouped(fed, piece, EncodeAll(w, rest));
  }

  lemma Regrouped(a: Bytes, b: Bytes, c: Bytes)
    ensures a + (b + c) == a + b + c && [] + c == c
  {
  }

  // ---- the digest says what was said ----

  /** The bytes of peer identities are self-delimiting: none is the start of another's. */
  ghost predicate SelfDelimiting(w: World) {
    forall p: Peer, q: Peer {:trigger w.PeerIdBytes(p), w.PeerIdBytes(q)} ::
      w.PeerIdBytes(p) <= w.PeerIdBytes(q) ==> p == q
  }

  lemma {:induction false} LittleEndianInjective(m: nat, n: nat, width: nat)
    requires LittleEndian(m, width) == LittleEndian(n, width)
    requires m < Power(width) && n < Power(width)
    ensures m == n
  {
    if width != 0 {
      var a, b := LittleEndian(m / 0x100, width - 1), LittleEndian(n / 0x100, width - 1);
      assert a == LittleEndian(m, width)[1..] == LittleEndian(n, width)[1..] == b;
      assert LittleEndian(m, width)[0] == LittleEndian(n, width)[0];
      LittleEndianInjective(m / 0x100, n / 0x100, width - 1);
    }
  }

  /** 256 to the power of `width`. */
  function Power(width: nat): nat {
    if width == 0 then 1 else 0x100 * Power(width - 1)
  }

  lemma PowerOfEight()
    ensures Power(8) == U64_LIMIT
  {
    assert Power(4) == 0x1_0000_0000;
    assert Power(6) == 0x1_0000_0000_0000;
  }

  /** Two statements written one after another with anything after them: the first bytes
      determine the first statement and where it ends. */
  lemma FirstStatementIsDetermined(w: World, s: Statement, t: Statement, x: Bytes, y: Bytes)
    requires SelfDelimiting(w)
    requires EncodeOne(w, s) + x == EncodeOne(w, t) + y
    ensures s == t && x == y
  {
    var whole := EncodeOne(w, s) + x;
    var p, q := w.PeerIdBytes(s.peer), w.PeerIdBytes(t.peer);
    var m, n := LittleEndian(s.seqNo, 8), LittleEndian(t.seqNo, 8);
    var k, l := LittleEndian(|s.username|, 8), LittleEndian(|t.username|, 8);
    StatementParts(p, m, Tag(s.position), k, s.username, x);
    StatementParts(q, n, Tag(t.position), l, t.username, y);
    assert p <= q || q <= p by {
      assert whole[..|p|] == p && whole[..|q|] == q;
    }
    assert s.peer == t.peer;
    PowerOfEight();
    LittleEndianInjective(s.seqNo, t.seqNo, 8);
    LittleEndianInjective(|s.username|, |t.username|, 8);
    JoinedApart(s.username, x, t.username, y);
  }

  lemma StatementParts(p: Bytes, n: Bytes, tag: Byte, l: Bytes, name: Bytes, rest: Bytes)
    requires |n| == |l| == 8
    ensures var whole := p + n + [tag] + l + name + rest;
            && whole[..|p|] == p
            && whole[|p|..|p| + 8] == n
            && whole[|p| + 8] == tag
            && whole[|p| + 9..|p| + 17] == l
            && whole[|p| + 17..] == name + rest
  {
  }

  lemma JoinedApart(a: Bytes, x: Bytes, b: Bytes, y: Bytes)
    requires |a| == |b| && a + x == b + y
    ensures a == b && x == y
  {
    assert a == (a + x)[..|a|] && b == (b + y)[..|a|];
    assert x == (a + x)[|a|..] && y == (b + y)[|a|..];
  }

  lemma {:induction false} EncodeAllInjective(w: World, a: seq<Statement>, b: seq<Statement>)
    requires SelfDelimiting(w)
    requires EncodeAll(w, a) == EncodeAll(w, b)
    ensures a == b
    decreases |a|
  {
    if a != [] && b != [] {
      FirstStatementIsDetermined(w, a[0], b[0], EncodeAll(w, a[1..]), EncodeAll(w, b[1..]));
      EncodeAllInjective(w, a[1..], b[1..]);
      assert a == [a[0]] + a[1..] && b == [b[0]] + b[1..];
    }
  }

  /** Equal digests: the members who have spoken, and what each said, are the same. */
  lemma DigestDeterminesStatements(
      w: World, m: Roster, standings: Register, m': Roster, standings': Register)
    requires SelfDelimiting(w)
    ensures DigestOf(w, m, standings) == DigestOf(w, m', standings') <==>
            Said(m.Keys, standings) == Said(m'.Keys, standings')
  {
    var a, b := Said(m.Keys, standings), Said(m'.Keys, standings');
    if DigestOf(w, m, standings) == DigestOf(w, m', standings') {
      assert ([2] + EncodeAll(w, a))[1..] == EncodeAll(w, a);
      assert ([2] + EncodeAll(w, b))[1..] == EncodeAll(w, b);
      EncodeAllInjective(w, a, b);
    }
  }

  /** A statement is among those the digest covers exactly when its peer is a member who made it. */
  lemma {:induction false} SaidContains(peers: set<Peer>, standings: Register, s: Statement)
    ensures s in Said(peers, standings) <==>
            && s.peer in peers && s.peer in standings
            && standings[s.peer].seqNo == s.seqNo
            && standings[s.peer].position == s.position
            && standings[s.peer].username == s.username
  {
    if peers != {} {
      SaidContains(peers - {Least(peers)}, standings, s);
    }
  }

  /** Only what current members said reaches the digest. */
  lemma {:induction false} SaidIgnoresOthers(peers: set<Peer>, a: Register, b: Register)
    requires forall p :: p in peers ==> (p in a <==> p in b)
    requires forall p :: p in peers && p in a ==>
               a[p].seqNo == b[p].seqNo && a[p].position == b[p].position && a[p].username == b[p].username
    ensures Said(peers, a) == Said(peers, b)
  {
    if peers != {} {
      SaidIgnoresOthers(peers - {Least(peers)}, a, b);
    }
  }

  // ---- the bytes that are hashed ----

  /** The number in these bytes, the least first. */
  function Read(bytes: Bytes): nat {
    if bytes == [] then 0 else bytes[0] + 0x100 * Read(bytes[1..])
  }

  lemma {:induction false} LittleEndianIsRead(n: nat, width: nat)
    requires n < Power(width)
    ensures Read(LittleEndian(n, width)) == n
  {
    if width > 0 {
      LittleEndianIsRead(n / 0x100, width - 1);
      assert LittleEndian(n, width)[1..] == LittleEndian(n / 0x100, width - 1);
    }
  }

  /** A statement is hashed as the peer's identity, its sequence number and its position, and its name after
      the length of it; numbers are eight bytes, the least first. */
  lemma StatementBytes(w: World, s: Statement) returns (seqNo: Bytes, length: Bytes)
    ensures EncodeOne(w, s)
            == w.PeerIdBytes(s.peer) + seqNo + [if s.position.Unanswered? then 0 else if s.position.In? then 1 else 2]
               + length + s.username
    ensures |seqNo| == |length| == 8 && Read(seqNo) == s.seqNo && Read(length) == |s.username|
  {
    seqNo, length := LittleEndian(s.seqNo, 8), LittleEndian(|s.username|, 8);
    PowerOfEight();
    LittleEndianIsRead(s.seqNo, 8);
    LittleEndianIsRead(|s.username|, 8);
  }

  /** Statements are hashed by ascending peer. */
  lemma {:induction false} SaidAscends(peers: set<Peer>, standings: Register, i: nat, j: nat)
    requires i < j < |Said(peers, standings)|
    ensures Said(peers, standings)[i].peer < Said(peers, standings)[j].peer
  {
    var p := Least(peers);
    var rest := Said(peers - {p}, standings);
    if p in standings && i == 0 {
      SaidContains(peers - {p}, standings, rest[j - 1]);
      assert rest[j - 1] in rest;
    } else if p in standings {
      SaidAscends(peers - {p}, standings, i - 1, j - 1);
    } else {
      SaidAscends(peers - {p}, standings, i, j);
    }
  }
}
