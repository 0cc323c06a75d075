/** What the rules of `Chain` amount to: validity stated position by position, and its
    consequences for batches, for two copies of one log and for membership. */
module ChainLaws {
  import opened Base
  import opened Wire
  import opened Memberships
  import opened Chains

  // ---- validity, without reference to how a log is built ----

  ghost predicate Decoded(w: World, v: Verified) {
    && v.entry.WireLen() <= MAX_ENTRY_BYTES
    && w.EntryBodyOf(v.entry) == Some(v.body)
    && v.hash == OfBody(v.entry.body)
  }

  ghost predicate SignedBy(w: World, v: Verified, admin: Peer) {
    w.HasKey(admin) && w.Verifies(admin, v.entry.body, v.entry.signature)
  }

  ghost predicate IsGenesis(w: World, log: Log) {
    && log.entries != []
    && var v := log.entries[0];
       && Decoded(w, v)
       && SignedBy(w, v, log.admin)
       && log.id == OfGenesis(v.entry.body)
       && v.body.group == Zero && v.body.seqNo == 0 && v.body.prev == NoParent
       && v.body.op.Create? && 0 < |v.body.op.name| <= MAX_NAME_LEN
       && v.body.op.admin == Base58(log.admin)
  }

  /** Whether the change is one the admin may make when `members` are in. */
  ghost predicate Permitted(w: World, admin: Peer, members: set<Peer>, op: Op) {
    match op
    case Create(_, _, _) => false
    case Add(text) => text.Base58? && w.HasKey(text.peer)
    case Remove(text) => text.Base58? && text.peer != admin && text.peer in members
  }

  ghost predicate Follows(w: World, log: Log, i: nat)
    requires 0 < i < |log.entries|
  {
    var v := log.entries[i];
    && Decoded(w, v)
    && SignedBy(w, v, log.admin)
    && v.body.group == log.id && v.body.seqNo == i && v.body.prev == log.entries[i - 1].hash
    && Permitted(w, log.admin, Fold(log.entries[..i]).Keys, v.body.op)
  }

  ghost predicate ValidLog(w: World, log: Log) {
    && IsGenesis(w, log)
    && forall i :: 0 < i < |log.entries| ==> Follows(w, log, i)
  }

  /** `b` is `a` with entries added. */
  ghost predicate Extends(b: Log, a: Log) {
    b.id == a.id && b.admin == a.admin && a.entries <= b.entries
  }

  // ---- building and checking agree ----

  lemma CheckNextIsFollows(w: World, log: Log, entry: Entry, v: Verified)
    requires ValidLog(w, log)
    ensures CheckNext(w, log, entry) == Ok(v) <==>
            v.entry == entry && Follows(w, log.(entries := log.entries + [v]), |log.entries|)
  {
    var next := log.(entries := log.entries + [v]);
    assert next.entries[..|log.entries|] == log.entries;
  }

  lemma {:induction false} ValidUpto(w: World, log: Log, n: nat)
    requires ValidLog(w, log) && 0 < n <= |log.entries|
    ensures ValidLog(w, log.Upto(n))
  {
    forall i | 0 < i < n ensures Follows(w, log.Upto(n), i) {
      assert Follows(w, log, i);
      assert log.entries[..n][..i] == log.entries[..i];
    }
  }

  lemma ValidSnoc(w: World, log: Log, v: Verified)
    requires log.entries != []
    ensures var next := log.(entries := log.entries + [v]);
            ValidLog(w, next) <==> ValidLog(w, log) && Follows(w, next, |log.entries|)
  {
    var next := log.(entries := log.entries + [v]);
    assert next.Upto(|log.entries|) == log;
    if ValidLog(w, next) {
      ValidUpto(w, next, |log.entries|);
    }
    if ValidLog(w, log) && Follows(w, next, |log.entries|) {
      forall i | 0 < i < |next.entries| ensures Follows(w, next, i) {
        if i < |log.entries| {
          assert Follows(w, log, i);
          assert next.entries[..i] == log.entries[..i];
        }
      }
    }
  }

  lemma {:induction false} ExtensionsAreValid(w: World, log: Log, batch: seq<Entry>)
    requires ValidLog(w, log) && ExtendLog(w, log, batch).Ok?
    ensures var next := ExtendLog(w, log, batch).value;
            ValidLog(w, next) && Extends(next, log) && next.Raw() == log.Raw() + batch
    decreases |batch|
  {
    if batch == [] {
      assert log.Raw() + batch == log.Raw();
    } else {
      var v := CheckNext(w, log, batch[0]).value;
      var step := log.(entries := log.entries + [v]);
      CheckNextIsFollows(w, log, batch[0], v);
      ValidSnoc(w, log, v);
      ExtensionsAreValid(w, step, batch[1..]);
      assert step.Raw() == log.Raw() + [batch[0]];
      assert step.Raw() + batch[1..] == log.Raw() + batch;
    }
  }

  lemma {:induction false} ValidLogsAreExtensions(w: World, log: Log, batch: seq<Entry>, next: Log)
    requires ValidLog(w, log)
    requires ValidLog(w, next) && Extends(next, log) && next.Raw() == log.Raw() + batch
    ensures ExtendLog(w, log, batch) == Ok(next)
    decreases |batch|
  {
    var n := |log.entries|;
    assert |next.entries| == |next.Raw()| == n + |batch|;
    if batch == [] {
      assert next.entries == log.entries;
    } else {
      var v := next.entries[n];
      var step := log.(entries := log.entries + [v]);
      assert next.Raw()[n] == batch[0];
      assert step == next.Upto(n + 1);
      ValidUpto(w, next, n + 1);
      ValidSnoc(w, log, v);
      CheckNextIsFollows(w, log, batch[0], v);
      assert step.Raw() == log.Raw() + [batch[0]];
      assert next.Raw() == step.Raw() + batch[1..];
      ValidLogsAreExtensions(w, step, batch[1..], next);
    }
  }

  /** Extending a valid log by a batch succeeds exactly when the log with that batch at its end
      is valid, and the result is that log. */
  lemma ExtendIsValidity(w: World, log: Log, batch: seq<Entry>, next: Log)
    requires ValidLog(w, log)
    ensures ExtendLog(w, log, batch) == Ok(next) <==>
            ValidLog(w, next) && Extends(next, log) && next.Raw() == log.Raw() + batch
  {
    if ExtendLog(w, log, batch).Ok? {
      ExtensionsAreValid(w, log, batch);
    }
    if ValidLog(w, next) && Extends(next, log) && next.Raw() == log.Raw() + batch {
      ValidLogsAreExtensions(w, log, batch, next);
    }
  }

  /** A list of entries loads exactly when it is the entries of a valid log, and as that log. */
  lemma LoadIsValidity(w: World, es: seq<Entry>, log: Log)
    ensures LoadLog(w, es) == Ok(log) <==> ValidLog(w, log) && log.Raw() == es
  {
    if LoadLog(w, es) == Ok(log) {
      var first := CheckGenesis(w, es[0]).value;
      assert IsGenesis(w, first) && first.Raw() == [es[0]];
      ExtendIsValidity(w, first, es[1..], log);
    }
    if ValidLog(w, log) && log.Raw() == es {
      assert es[0] == log.Raw()[0] == log.entries[0].entry;
      var first := log.Upto(1);
      assert first.entries == [log.entries[0]];
      assert CheckSignature(w, es[0], log.admin, 0).None?;
      assert CheckGenesis(w, es[0]) == Ok(first);
      ValidUpto(w, log, 1);
      assert first.Raw() == [es[0]];
      assert log.Raw() == first.Raw() + es[1..];
      ExtendIsValidity(w, first, es[1..], log);
    }
  }

  /** An entry that is refused breaks the rule that the refusal names. */
  lemma RefusedEntriesAreFaulty(w: World, log: Log, entry: Entry)
    requires CheckNext(w, log, entry).Err?
    ensures var body := w.EntryBodyOf(entry);
            match CheckNext(w, log, entry).error
            case TooLarge(seqNo, bytes) => seqNo == |log.entries| && bytes == |entry.body| + |entry.signature| > 4096
            case MalformedEntry => body.None?
            case OutOfOrder(want, got) => body.Some? && got == body.value.seqNo != want == |log.entries|
            case WrongGroup(_, found) => body.Some? && found == body.value.group != log.id
            case BrokenLink(_) => body.Some? && body.value.prev != log.Head()
            case AdminKey(admin) => admin == log.admin && !w.HasKey(admin)
            case BadSignature(_) => !w.Verifies(log.admin, entry.body, entry.signature)
            case SecondGenesis(_) => body.Some? && body.value.op.Create?
            case UnparseablePeer(_, text) =>
              text.Unparseable? && body.Some? && (body.value.op == Add(text) || body.value.op == Remove(text))
            case UnusablePeer(_, text) =>
              text.Base58? && body.Some? && body.value.op == Add(text) && !w.HasKey(text.peer)
            case SelfRemoval(_) => body.Some? && body.value.op == Remove(Base58(log.admin))
            case NotAMember(_, text) =>
              text.Base58? && body.Some? && body.value.op == Remove(text) && text.peer !in log.Members()
            case _ => false
  {
  }

  /** A group goes by the name its founder gave it. */
  lemma NameIsTheFounders(w: World, log: Log)
    requires ValidLog(w, log)
    ensures log.entries[0].body.op == Create(Base58(log.admin), log.entries[0].body.op.nonce, log.Name())
    ensures 1 <= |log.Name()| <= 64
  {
  }

  /** Batches compose: all of `a + b` is accepted exactly when `a` is and then `b` is, with the
      same log at the end, and an error in `a` is the error of the whole. */
  lemma {:induction false} ExtendComposes(w: World, log: Log, a: seq<Entry>, b: seq<Entry>)
    ensures ExtendLog(w, log, a + b) ==
            match ExtendLog(w, log, a) {
              case Err(e) => Err(e)
              case Ok(mid) => ExtendLog(w, mid, b)
            }
    decreases |a|
  {
    if a == [] {
      assert a + b == b;
    } else {
      assert (a + b)[0] == a[0] && (a + b)[1..] == a[1..] + b;
      match CheckNext(w, log, a[0])
      case Err(_) =>
      case Ok(v) => ExtendComposes(w, log.(entries := log.entries + [v]), a[1..], b);
    }
  }

  /** A valid log is rebuilt from its own entries: same id, admin, head and membership. */
  lemma ReloadRebuilds(w: World, log: Log)
    requires ValidLog(w, log)
    ensures LoadLog(w, log.Raw()) == Ok(log)
  {
    LoadIsValidity(w, log.Raw(), log);
  }

  // ---- two logs of one group ----

  /** One body in common at a position, and everything up to it is in common. */
  lemma {:induction false} CommonBodyForcesPrefix(w: World, a: Log, b: Log, i: nat)
    requires ValidLog(w, a) && ValidLog(w, b)
    requires i < |a.entries| && i < |b.entries|
    requires a.entries[i].hash == b.entries[i].hash
    ensures a.id == b.id && a.admin == b.admin
    ensures forall j :: 0 <= j <= i ==> a.entries[j].entry.body == b.entries[j].entry.body
    ensures forall j :: 0 <= j <= i ==> a.entries[j].body == b.entries[j].body
  {
    if i > 0 {
      assert Follows(w, a, i) && Follows(w, b, i);
      assert Decoded(w, a.entries[i - 1]) && Decoded(w, b.entries[i - 1]) by {
        assert i - 1 > 0 ==> Follows(w, a, i - 1) && Follows(w, b, i - 1);
      }
      CommonBodyForcesPrefix(w, a, b, i - 1);
    }
  }

  /** Logs with the same id start with the same entry body, and so have the same admin. */
  lemma SameIdSameGenesis(w: World, a: Log, b: Log)
    requires ValidLog(w, a) && ValidLog(w, b) && a.id == b.id
    ensures a.entries[0].hash == b.entries[0].hash && a.admin == b.admin
  {
  }

  lemma {:induction false} FoldDependsOnBodies(a: seq<Verified>, b: seq<Verified>)
    requires |a| == |b| && forall i :: 0 <= i < |a| ==> a[i].body == b[i].body
    ensures Fold(a) == Fold(b)
    ensures forall p :: Departure(a, p) == Departure(b, p)
  {
    if a != [] {
      FoldDependsOnBodies(a[..|a| - 1], b[..|b| - 1]);
    }
  }

  // ---- membership ----

  /** Whether the entry says anything about the peer. */
  predicate Mentions(op: Op, p: Peer) {
    match op
    case Create(admin, _, _) => admin == Base58(p)
    case Add(named) => named == Base58(p)
    case Remove(named) => named == Base58(p)
  }

  ghost predicate MentionedAt(es: seq<Verified>, p: Peer, i: nat) {
    i < |es| && Mentions(es[i].body.op, p)
  }

  /** Position `i` holds the last entry that says anything about `p`. */
  ghost predicate LastWordAt(es: seq<Verified>, p: Peer, i: nat) {
    MentionedAt(es, p, i) && forall j :: i < j < |es| ==> !Mentions(es[j].body.op, p)
  }

  /** The last entry about a peer decides: in if it created or added it, departed at that
      position if it removed it, and neither if there is none. */
  lemma {:induction false} LastWordDecides(es: seq<Verified>, p: Peer)
    ensures p in Fold(es) <==> exists i: nat :: LastWordAt(es, p, i) && !es[i].body.op.Remove?
    ensures forall s: nat :: Departure(es, p) == Some(s) <==> LastWordAt(es, p, s) && es[s].body.op.Remove?
    ensures p !in Fold(es) && Departure(es, p).None? <==> forall i: nat :: !MentionedAt(es, p, i)
  {
    if es != [] {
      var last := |es| - 1;
      var front := es[..last];
      LastWordDecides(front, p);
      if Mentions(es[last].body.op, p) {
        assert LastWordAt(es, p, last);
        assert forall i: nat :: LastWordAt(es, p, i) ==> i == last;
      } else {
        SilentEntry(es, p);
      }
    }
  }

  lemma SilentEntry(es: seq<Verified>, p: Peer)
    requires es != [] && !Mentions(es[|es| - 1].body.op, p)
    ensures forall i: nat :: MentionedAt(es, p, i) <==> MentionedAt(es[..|es| - 1], p, i)
    ensures forall i: nat :: LastWordAt(es, p, i) <==> LastWordAt(es[..|es| - 1], p, i)
    ensures p in Fold(es) <==> p in Fold(es[..|es| - 1])
    ensures Departure(es, p) == Departure(es[..|es| - 1], p)
  {
    var front := es[..|es| - 1];
    forall i: nat ensures MentionedAt(es, p, i) <==> MentionedAt(front, p, i) {
    }
    forall i: nat ensures LastWordAt(es, p, i) <==> LastWordAt(front, p, i) {
      assert forall j :: 0 <= j < |front| ==> front[j] == es[j];
    }
  }

  /** `store.rs`'s test of whether a standing about `p` is worth keeping. */
  predicate EverMentioned(log: Log, p: Peer) {
    log.admin == p || exists i :: 0 <= i < |log.entries| && log.entries[i].body.op == Add(Base58(p))
  }

  /** Every peer is in exactly one of three cases on a valid log: a member, departed (at its last
      removal) or never mentioned; the standings kept are those of the first two. */
  lemma EveryPeerHasOneStatus(w: World, log: Log, p: Peer)
    requires ValidLog(w, log)
    ensures !(p in log.Members() && Departure(log.entries, p).Some?)
    ensures EverMentioned(log, p) <==> p in log.Members() || Departure(log.entries, p).Some?
  {
    var es := log.entries;
    LastWordDecides(es, p);
    assert MentionedAt(es, log.admin, 0);
    if EverMentioned(log, p) && log.admin != p {
      var i :| 0 <= i < |es| && es[i].body.op == Add(Base58(p));
      assert MentionedAt(es, p, i);
    }
    if !EverMentioned(log, p) && (p in log.Members() || Departure(es, p).Some?) {
      var i: nat :| MentionedAt(es, p, i);
      FirstMentionAdmits(w, log, p, i);
    }
  }

  /** Nobody is removed who was not added: some entry up to any mention admits the peer. */
  lemma {:induction false} FirstMentionAdmits(w: World, log: Log, p: Peer, i: nat)
    requires ValidLog(w, log) && MentionedAt(log.entries, p, i)
    ensures p == log.admin || exists j :: 0 <= j < |log.entries| && log.entries[j].body.op == Add(Base58(p))
    decreases i
  {
    if i > 0 && log.entries[i].body.op.Remove? {
      assert Follows(w, log, i);
      LastWordDecides(log.entries[..i], p);
      var j: nat :| LastWordAt(log.entries[..i], p, j);
      assert MentionedAt(log.entries, p, j);
      FirstMentionAdmits(w, log, p, j);
    } else if i > 0 {
      assert Follows(w, log, i);
    }
  }

  /** The admin is always a member, the only one marked admin, and never departed. */
  lemma {:induction false} OneAdminForever(w: World, log: Log)
    requires ValidLog(w, log)
    ensures log.admin in log.Members()
    ensures forall p :: p in log.Members() ==> (log.Members()[p].isAdmin <==> p == log.admin)
    ensures forall p :: p in log.Members() ==> log.Members()[p].username == None
    ensures Departure(log.entries, log.admin).None?
    decreases |log.entries|
  {
    var last := |log.entries| - 1;
    var before := Fold(log.entries[..last]);
    assert log.Members() == Apply(before, log.entries[last].body.op);
    if last == 0 {
      assert before == map[];
    } else {
      assert log.Upto(last).Members() == before;
      ValidUpto(w, log, last);
      OneAdminForever(w, log.Upto(last));
      assert Follows(w, log, last);
    }
    EveryPeerHasOneStatus(w, log, log.admin);
  }
}
