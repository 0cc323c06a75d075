/** A group's membership log: one writer, each entry signed and linked to the one before
    (crates/ac-groups/src/chain.rs). */
module Chains {
  import opened Base
  import opened Wire
  import opened Memberships

  const MAX_ENTRY_BYTES := 4096
  const MAX_NAME_LEN := 64

  datatype ChainError =
    | MalformedEntry
    | EncodeFailed
    | SigningFailed
    | TooLarge(seqNo: nat, bytes: nat)
    | NoGenesis
    | MalformedGenesis
    | SecondGenesis(seqNo: nat)
    | OutOfOrder(want: nat, got: nat)
    | BrokenLink(seqNo: nat)
    | WrongGroup(seqNo: nat, found: GroupId)
    | AdminKey(admin: Peer)
    | BadSignature(seqNo: nat)
    | UnparseablePeer(seqNo: nat, peer: PeerText)
    | UnusablePeer(seqNo: nat, peer: PeerText)
    | SelfRemoval(seqNo: nat)
    | NotAMember(seqNo: nat, peer: PeerText)
    | BadName(seqNo: nat)
    | NotAdmin

  /** An entry together with its decoded body and its hash. */
  datatype Verified = Verified(entry: Entry, body: EntryBody, hash: EntryHash)

  /** The value of a `Chain`. */
  datatype Log = Log(id: GroupId, admin: Peer, entries: seq<Verified>) {
    function Head(): EntryHash {
      if entries == [] then NoParent else entries[|entries| - 1].hash
    }

    function HashAt(seqNo: nat): Option<EntryHash> {
      if seqNo < |entries| then Some(entries[seqNo].hash) else None
    }

    function Raw(): seq<Entry> {
      seq(|entries|, i requires 0 <= i < |entries| => entries[i].entry)
    }

    function Members(): Roster {
      Fold(entries)
    }

    function Name(): Name {
      if entries != [] && entries[0].body.op.Create? then entries[0].body.op.name else []
    }

    /** The first `n` entries. */
    function Upto(n: nat): Log
      requires n <= |entries|
    {
      Log(id, admin, entries[..n])
    }
  }

  // ---- what a log says about membership ----

  function Apply(m: Roster, op: Op): Roster {
    match op
    case Create(admin, _, _) => if Parse(admin).Some? then Joined(m, Parse(admin).value, true) else m
    case Add(peer) => if Parse(peer).Some? then Joined(m, Parse(peer).value, false) else m
    case Remove(peer) => if Parse(peer).Some? then m - {Parse(peer).value} else m
  }

  function Fold(es: seq<Verified>): Roster {
    if es == [] then map[] else Apply(Fold(es[..|es| - 1]), es[|es| - 1].body.op)
  }

  function Departure(es: seq<Verified>, peer: Peer): Option<nat> {
    if es == [] then None
    else
      var last := |es| - 1;
      match es[last].body.op
      case Create(admin, _, _) => if admin == Base58(peer) then None else Departure(es[..last], peer)
      case Add(named) => if named == Base58(peer) then None else Departure(es[..last], peer)
      case Remove(named) => if named == Base58(peer) then Some(last) else Departure(es[..last], peer)
  }

  // ---- what makes an entry acceptable ----

  function CheckSignature(w: World, entry: Entry, admin: Peer, seqNo: nat): Option<ChainError> {
    if !w.HasKey(admin) then Some(AdminKey(admin))
    else if !w.Verifies(admin, entry.body, entry.signature) then Some(BadSignature(seqNo))
    else None
  }

  function CheckGenesis(w: World, entry: Entry): Result<Log, ChainError> {
    if entry.WireLen() > MAX_ENTRY_BYTES then Err(TooLarge(0, entry.WireLen()))
    else
      match w.EntryBodyOf(entry)
      case None => Err(MalformedEntry)
      case Some(body) =>
        if body.seqNo != 0 then Err(OutOfOrder(0, body.seqNo))
        else if body.prev != NoParent || body.group != Zero then Err(MalformedGenesis)
        else if !body.op.Create? then Err(NoGenesis)
        else if body.op.name == [] || |body.op.name| > MAX_NAME_LEN then Err(BadName(0))
        else
          match Parse(body.op.admin)
          case None => Err(UnparseablePeer(0, body.op.admin))
          case Some(admin) =>
            match CheckSignature(w, entry, admin, 0)
            case Some(e) => Err(e)
            case None => Ok(Log(OfGenesis(entry.body), admin, [Verified(entry, body, entry.Hash())]))
  }

  function CheckOp(w: World, log: Log, op: Op, seqNo: nat): Option<ChainError> {
    match op
    case Create(_, _, _) => Some(SecondGenesis(seqNo))
    case Add(text) =>
      (match Parse(text)
       case None => Some(UnparseablePeer(seqNo, text))
       case Some(peer) => if w.HasKey(peer) then None else Some(UnusablePeer(seqNo, text)))
    case Remove(text) =>
      match Parse(text)
      case None => Some(UnparseablePeer(seqNo, text))
      case Some(peer) =>
        if peer == log.admin then Some(SelfRemoval(seqNo))
        else if peer !in log.Members() then Some(NotAMember(seqNo, text))
        else None
  }

  function CheckNext(w: World, log: Log, entry: Entry): Result<Verified, ChainError> {
    if entry.WireLen() > MAX_ENTRY_BYTES then Err(TooLarge(|log.entries|, entry.WireLen()))
    else
      match w.EntryBodyOf(entry)
      case None => Err(MalformedEntry)
      case Some(body) =>
        var seqNo := body.seqNo;
        if seqNo != |log.entries| then Err(OutOfOrder(|log.entries|, seqNo))
        else if body.group != log.id then Err(WrongGroup(seqNo, body.group))
        else if body.prev != log.Head() then Err(BrokenLink(seqNo))
        else
          match CheckSignature(w, entry, log.admin, seqNo)
          case Some(e) => Err(e)
          case None =>
            match CheckOp(w, log, body.op, seqNo)
            case Some(e) => Err(e)
            case None => Ok(Verified(entry, body, entry.Hash()))
  }

  function ExtendLog(w: World, log: Log, es: seq<Entry>): Result<Log, ChainError>
    decreases |es|
  {
    if es == [] then Ok(log)
    else
      match CheckNext(w, log, es[0])
      case Err(e) => Err(e)
      case Ok(v) => ExtendLog(w, log.(entries := log.entries + [v]), es[1..])
  }

  function LoadLog(w: World, es: seq<Entry>): Result<Log, ChainError> {
    if es == [] then Err(NoGenesis)
    else
      match CheckGenesis(w, es[0])
      case Err(e) => Err(e)
      case Ok(log) => ExtendLog(w, log, es[1..])
  }

  function SignEntry(w: World, key: Peer, body: EntryBody): Result<Entry, ChainError> {
    match w.EncodedEntry(body)
    case None => Err(EncodeFailed)
    case Some(bytes) =>
      match w.Signature(key, bytes)
      case None => Err(SigningFailed)
      case Some(signature) =>
        var entry := Entry(bytes, signature);
        if entry.WireLen() > MAX_ENTRY_BYTES then Err(TooLarge(body.seqNo, entry.WireLen()))
        else Ok(entry)
  }

  function CreateLog(w: World, key: Peer, name: Name, nonce: Bytes, at: int): Result<Log, ChainError> {
    match SignEntry(w, key, EntryBody(Zero, 0, NoParent, at, Create(Base58(key), nonce, name)))
    case Err(e) => Err(e)
    case Ok(entry) => LoadLog(w, [entry])
  }

  function AuthorEntry(w: World, log: Log, key: Peer, op: Op, at: int): Result<(Entry, Log), ChainError> {
    if key != log.admin then Err(NotAdmin)
    else
      match SignEntry(w, key, EntryBody(log.id, |log.entries|, log.Head(), at, op))
      case Err(e) => Err(e)
      case Ok(entry) =>
        match ExtendLog(w, log, [entry])
        case Err(e) => Err(e)
        case Ok(next) => Ok((entry, next))
  }

  /** Entries `from..to`, clamped to the log. */
  function Between(log: Log, from: nat, to: nat): seq<Entry> {
    var hi := if to <= |log.entries| then to else |log.entries|;
    var lo := if from <= to then from else to;
    if lo <= hi then log.Raw()[lo..hi] else []
  }

  // ---- the log in place ----

  class Chain {
    var id: GroupId
    var admin: Peer
    var entries: seq<Verified>

    function Value(): Log
      reads this
    {
      Log(id, admin, entries)
    }

    constructor (log: Log)
      ensures Value() == log
    {
      id, admin, entries := log.id, log.admin, log.entries;
    }

    static method Load(w: World, es: seq<Entry>) returns (r: Result<Chain, ChainError>)
      ensures r.Ok? ==> fresh(r.value)
      ensures (if r.Ok? then Ok(r.value.Value()) else Err(r.error)) == LoadLog(w, es)
    {
      if es == [] {
        return Err(NoGenesis);
      }
      var genesis := CheckGenesis(w, es[0]);
      if genesis.Err? {
        return Err(genesis.error);
      }
      var chain := new Chain(genesis.value);
      var applied := chain.Extend(w, es[1..]);
      if applied.Err? {
        return Err(applied.error);
      }
      return Ok(chain);
    }

    /** The chain grows by every entry of the batch, or the first fault is reported and it stays as it was. */
    method Extend(w: World, batch: seq<Entry>) returns (r: Result<nat, ChainError>)
      modifies this
      ensures match ExtendLog(w, old(Value()), batch)
              case Ok(next) => Value() == next && r == Ok(|batch|)
              case Err(e) => unchanged(this) && r == Err(e)
    {
      var staged: seq<Verified> := [];
      var view := Value();
      for i := 0 to |batch|
        invariant unchanged(this)
        invariant |staged| == i
        invariant view == Value().(entries := entries + staged)
        invariant ExtendLog(w, view, batch[i..]) == ExtendLog(w, Value(), batch)
      {
        var verified := CheckNext(w, view, batch[i]);
        assert batch[i..][1..] == batch[i + 1..];
        if verified.Err? {
          return Err(verified.error);
        }
        view := view.(entries := view.entries + [verified.value]);
        staged := staged + [verified.value];
      }
      entries := entries + staged;
      return Ok(|staged|);
    }

    method Author(w: World, key: Peer, op: Op, at: int) returns (r: Result<Entry, ChainError>)
      modifies this
      ensures match AuthorEntry(w, old(Value()), key, op, at)
              case Ok(made) => r == Ok(made.0) && Value() == made.1
              case Err(e) => r == Err(e) && unchanged(this)
    {
      if key != admin {
        return Err(NotAdmin);
      }
      var entry := SignEntry(w, key, EntryBody(id, |entries|, Value().Head(), at, op));
      if entry.Err? {
        return Err(entry.error);
      }
      var applied := Extend(w, [entry.value]);
      if applied.Err? {
        return Err(applied.error);
      }
      return Ok(entry.value);
    }

    method FoldMembers() returns (members: Members)
      ensures fresh(members) && members.byPeer == Value().Members()
    {
      members := new Members();
      for i := 0 to |entries|
        invariant members.byPeer == Fold(entries[..i])
      {
        assert entries[..i + 1][..i] == entries[..i];
        match entries[i].body.op
        case Create(admin, _, _) =>
          if Parse(admin).Some? {
            members.Insert(Parse(admin).value, true);
          }
        case Add(peer) =>
          if Parse(peer).Some? {
            members.Insert(Parse(peer).value, false);
          }
        case Remove(peer) =>
          if Parse(peer).Some? {
            var _ := members.Remove(Parse(peer).value);
          }
      }
      assert entries[..|entries|] == entries;
    }

    method DepartureSeq(peer: Peer) returns (removedAt: Option<nat>)
      ensures removedAt == Departure(entries, peer)
    {
      removedAt := None;
      for seqNo := 0 to |entries|
        invariant removedAt == Departure(entries[..seqNo], peer)
      {
        assert entries[..seqNo + 1][..seqNo] == entries[..seqNo];
        match entries[seqNo].body.op
        case Add(named) => if named == Base58(peer) { removedAt := None; }
        case Remove(named) => if named == Base58(peer) { removedAt := Some(seqNo); }
        case Create(admin, _, _) => if admin == Base58(peer) { removedAt := None; }
      }
      assert entries[..|entries|] == entries;
    }
  }
}
