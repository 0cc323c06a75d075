/** What each input does to each peer's entry, and what that comes to over runs: who qualifies is admitted, and
    nobody else (crates/ac-net/src/admission.rs). */
module AdmissionLaws {
  import opened Base
  import opened Admissions

  // ---- one input ----

  /** The name that the input proves of the peer, if it is an attestation of it that passes. */
  function Proven(a: Attesting, s: State, input: Input, peer: Peer): Option<Name> {
    if input.Request? && input.peer == peer && s.server.Some? then
      match a.verify(input.attestation, peer, s.server.value, input.at)
      case Ok(username) => Some(username)
      case Err(_) => None
    else None
  }

  /** The input is an attestation of the peer that does not pass. */
  predicate Fails(a: Attesting, s: State, input: Input, peer: Peer) {
    && input.Request? && input.peer == peer
    && (s.server.None? || a.verify(input.attestation, peer, s.server.value, input.at).Err?)
  }

  predicate Begins(a: Attesting, s: State, input: Input, peer: Peer) {
    && s.server.Some?
    && (|| (input.Connected? && input.peer == peer && s.server != Some(peer))
        || (&& input.Request? && input.peer == peer
            && a.verify(input.attestation, peer, s.server.value, input.at).Ok?))
  }

  /** The input has this node close its connections with the peer, and why. */
  predicate Turns(a: Attesting, s: State, input: Input, peer: Peer) {
    && s.server != Some(peer)
    && (|| (input.Connected? && input.peer == peer && s.server.None?)
        || (input.Rejected? && input.peer == peer)
        || Fails(a, s, input, peer)
        || (input.Tick? && peer in s.peers && !s.peers[peer].Complete() && input.now >= s.peers[peer].deadline))
  }

  /** A peer has an entry after an input exactly if the input begins one, or it had one and neither went
      away nor was turned away. */
  lemma EntriesComeAndGo(a: Attesting, s: State, input: Input, peer: Peer)
    ensures peer in React(a, s, input).0.peers <==>
            || Begins(a, s, input, peer)
            || (peer in s.peers && input != Disconnected(peer, false) && !Turns(a, s, input, peer))
  {
  }

  /** Exactly those turned away are closed, each for its reason. */
  lemma TheTurnedAwayAreClosed(a: Attesting, s: State, input: Input, peer: Peer)
    ensures var o := React(a, s, input).1;
            && (peer in o.close <==> Turns(a, s, input, peer))
            && (peer in o.close ==>
                  match input
                  case Connected(_, _) => o.close[peer] == NotEnrolled
                  case Rejected(_, why) => o.close[peer] == TheyRejected(why)
                  case Tick(_, _, _) => o.close[peer] == TooLate
                  case Request(_, attestation, _, at) =>
                    if s.server.None? then o.close[peer] == NotEnrolled
                    else
                      && a.verify(attestation, peer, s.server.value, at).Err?
                      && o.close[peer] == Refused(a.verify(attestation, peer, s.server.value, at).error)
                  case _ => false)
  {
  }

  /** An entry goes by the name last proved. */
  lemma NamesAreThoseProven(a: Attesting, s: State, input: Input, peer: Peer)
    requires peer in React(a, s, input).0.peers
    ensures React(a, s, input).0.peers[peer].username
            == if Proven(a, s, input, peer).Some? then Proven(a, s, input, peer)
               else if peer in s.peers then s.peers[peer].username else None
  {
  }

  /** An acceptance, once given, stays on the entry. */
  lemma PassesAreThoseGiven(a: Attesting, s: State, input: Input, peer: Peer)
    requires peer in React(a, s, input).0.peers
    ensures React(a, s, input).0.peers[peer].wePassed
            <==> (peer in s.peers && s.peers[peer].wePassed) || input == Accepted(peer)
  {
  }

  /** A peer has a quarter of a minute from when it last connected or, if it has not, first proved its name. */
  lemma DeadlinesFollowConnecting(a: Attesting, s: State, input: Input, peer: Peer)
    requires peer in React(a, s, input).0.peers
    ensures peer !in s.peers ==> input.Connected? || input.Request?
    ensures React(a, s, input).0.peers[peer].deadline
            == if (input.Connected? && input.peer == peer && s.server != Some(peer)) || peer !in s.peers
               then input.now + 15 else s.peers[peer].deadline
  {
  }

  /** Who our attestation is sent to: with one in hand, those who connect, and those not sent it since, as
      they prove their name, as it is issued, or at a tick. */
  predicate Due(a: Attesting, s: State, input: Input, peer: Peer) {
    match input
    case Connected(p, _) => p == peer && s.server.Some? && s.server != Some(peer)
    case Request(p, attestation, _, at) =>
      && p == peer && s.server.Some? && a.verify(attestation, peer, s.server.value, at).Ok?
      && (peer in s.peers ==> !s.peers[peer].sent)
    case Issued(attestation, at) =>
      && peer in s.peers && !s.peers[peer].sent && s.server.Some?
      && a.verify(attestation, s.me, s.server.value, at).Ok?
    case Tick(_, _, _) => peer in s.peers && !s.peers[peer].sent
    case _ => false
  }

  lemma ExactlyTheDueAreSent(a: Attesting, s: State, input: Input, peer: Peer)
    ensures var (after, o) := React(a, s, input);
            && (peer in o.send <==> after.mine.Some? && Due(a, s, input, peer))
            && (peer in after.peers ==>
                  (after.peers[peer].sent <==>
                     || peer in o.send
                     || (&& peer in s.peers && s.peers[peer].sent && input != ExchangeFailed(peer)
                         && !(input.Connected? && input.peer == peer && s.server != Some(peer)))))
  {
  }

  /** What this node holds for itself: the last attestation issued to it that passes. A renewal is asked for
      at a tick exactly when one is needed, the server can be reached and none is outstanding. */
  lemma OwnAttestationIsRenewed(a: Attesting, s: State, input: Input)
    ensures var (after, o) := React(a, s, input);
            && after.mine
               == (if input.Issued? && s.server.Some?
                      && a.verify(input.attestation, s.me, s.server.value, input.at).Ok?
                   then Some(input.attestation) else s.mine)
            && (o.renew.Some? <==>
                  && input.Tick? && s.server.Some? && input.serverConnected && !s.renewing
                  && (s.mine.None? || a.needsRenewal(s.mine.value, input.at)))
            && (o.renew.Some? ==> o.renew == s.server)
            && (after.renewing <==> o.renew.Some? || (s.renewing && !input.Issued? && !input.NotIssued?))
            && after.me == s.me && after.server == s.server
  {
  }

  /** A peer is admitted by an input exactly if that makes it announced, and under the name on its entry. */
  lemma AdmittedAsAnnounced(a: Attesting, s: State, input: Input, peer: Peer, username: Name)
    requires AnnouncedIffComplete(s)
    ensures var (after, o) := React(a, s, input);
            o.admit == Some((peer, username)) <==>
            && peer in after.peers && after.peers[peer].announced && after.peers[peer].username == Some(username)
            && !(peer in s.peers && s.peers[peer].announced)
  {
  }

  // ---- every run ----

  lemma {:induction false} VouchingStays(
      a: Attesting, s: State, inputs: seq<Input>, j: nat, peer: Peer, username: Name)
    requires j < |inputs| && Entered(a, s, inputs, j + 1, peer)
    requires Proven(a, After(a, s, inputs[..j]), inputs[j], peer) == Some(username)
    ensures peer in After(a, s, inputs).peers && After(a, s, inputs).peers[peer].username.Some?
    decreases |inputs|
  {
    var front, last := inputs[..|inputs| - 1], |inputs| - 1;
    assert inputs[..|inputs|] == inputs;
    assert peer in After(a, s, inputs).peers;
    NamesAreThoseProven(a, After(a, s, front), inputs[last], peer);
    if j < last {
      EnteredFront(a, s, inputs, j + 1, peer);
      assert front[..j] == inputs[..j];
      VouchingStays(a, s, front, j, peer, username);
    }
  }

  lemma {:induction false} PassingStays(a: Attesting, s: State, inputs: seq<Input>, k: nat, peer: Peer)
    requires k < |inputs| && Entered(a, s, inputs, k + 1, peer) && inputs[k] == Accepted(peer)
    ensures peer in After(a, s, inputs).peers && After(a, s, inputs).peers[peer].wePassed
    decreases |inputs|
  {
    var front, last := inputs[..|inputs| - 1], |inputs| - 1;
    assert inputs[..|inputs|] == inputs;
    assert peer in After(a, s, inputs).peers;
    PassesAreThoseGiven(a, After(a, s, front), inputs[last], peer);
    if k < last {
      EnteredFront(a, s, inputs, k + 1, peer);
      PassingStays(a, s, front, k, peer);
    }
  }

  lemma EnteredFront(a: Attesting, s: State, inputs: seq<Input>, from: nat, peer: Peer)
    requires from < |inputs| && Entered(a, s, inputs, from, peer)
    ensures Entered(a, s, inputs[..|inputs| - 1], from, peer)
  {
    var front := inputs[..|inputs| - 1];
    assert forall m :: 0 <= m <= |front| ==> front[..m] == inputs[..m];
  }

  /** An entry has a name exactly if the peer proved one, and a pass exactly if the peer accepted ours, each
      with an entry ever since. */
  lemma EntriesTellTheRun(a: Attesting, s: State, inputs: seq<Input>, peer: Peer)
    requires s.peers == map[] && peer in After(a, s, inputs).peers
    ensures var entry := After(a, s, inputs).peers[peer];
            && (entry.username.Some? <==> exists name :: Vouched(a, s, inputs, peer, name))
            && (entry.wePassed <==> PassedBy(a, s, inputs, peer))
  {
    EntriesAreEarned(a, s, inputs, peer);
    if name :| Vouched(a, s, inputs, peer, name) {
      var j :| 0 <= j < |inputs|
        && inputs[j].Request? && inputs[j].peer == peer
        && s.server.Some? && a.verify(inputs[j].attestation, peer, s.server.value, inputs[j].at) == Ok(name)
        && Entered(a, s, inputs, j + 1, peer);
      EveryRunKeeps(a, s, inputs[..j]);
      VouchingStays(a, s, inputs, j, peer, name);
    }
    if PassedBy(a, s, inputs, peer) {
      var k :| 0 <= k < |inputs| && inputs[k] == Accepted(peer) && Entered(a, s, inputs, k + 1, peer);
      PassingStays(a, s, inputs, k, peer);
    }
  }

  /** A peer is announced exactly if it proved a name and accepted ours, in either order, with an entry ever
      since each. */
  lemma AnnouncedExactlyWhenEarned(a: Attesting, s: State, inputs: seq<Input>, peer: Peer)
    requires s.peers == map[] && peer in After(a, s, inputs).peers
    ensures After(a, s, inputs).peers[peer].announced
            <==> PassedBy(a, s, inputs, peer) && exists name :: Vouched(a, s, inputs, peer, name)
  {
    EveryRunKeeps(a, s, inputs);
    EntriesTellTheRun(a, s, inputs, peer);
  }

  /** Whoever is announced was admitted by some input, and has had an entry since. */
  lemma {:induction false} TheAnnouncedWereAdmitted(a: Attesting, s: State, inputs: seq<Input>, peer: Peer)
    returns (n: nat, username: Name)
    requires s.peers == map[] && peer in After(a, s, inputs).peers && After(a, s, inputs).peers[peer].announced
    ensures n < |inputs| && Admits(a, s, inputs, n, peer, username) && Entered(a, s, inputs, n + 1, peer)
    decreases |inputs|
  {
    var front, last := inputs[..|inputs| - 1], inputs[|inputs| - 1];
    assert inputs == front + [last] && inputs[..|inputs|] == inputs;
    EveryRunKeeps(a, s, front);
    EveryRunKeeps(a, s, inputs);
    var before := After(a, s, front);
    if peer in before.peers && before.peers[peer].announced {
      n, username := TheAnnouncedWereAdmitted(a, s, front, peer);
      EnteredLonger(a, s, front, last, n + 1, peer);
      assert front[..n] == inputs[..n];
    } else {
      n, username := |front|, After(a, s, inputs).peers[peer].username.value;
      AdmittedAsAnnounced(a, before, last, peer, username);
    }
  }

  /** Whoever proves a name and accepts ours, in either order and with an entry ever since each, is admitted. */
  lemma WhoQualifiesIsAdmitted(a: Attesting, s: State, inputs: seq<Input>, peer: Peer, name: Name)
    requires s.peers == map[] && Vouched(a, s, inputs, peer, name) && PassedBy(a, s, inputs, peer)
    ensures exists n, username ::
              0 <= n < |inputs| && Admits(a, s, inputs, n, peer, username) && Entered(a, s, inputs, n + 1, peer)
  {
    assert inputs[..|inputs|] == inputs;
    assert peer in After(a, s, inputs).peers;
    AnnouncedExactlyWhenEarned(a, s, inputs, peer);
    var n, username := TheAnnouncedWereAdmitted(a, s, inputs, peer);
  }
}
