/** The mutual attestation exchange that admits a peer (crates/ac-net/src/admission.rs). */
module Admissions {
  import opened Base

  const HANDSHAKE_TIMEOUT := 15

  type Attestation = Bytes

  /** What is known of attestations: whom one attests to, for which server and when, and when to renew. */
  datatype Attesting = Attesting(
    verify: (Attestation, Peer, Peer, int) -> Result<Name, string>, needsRenewal: (Attestation, int) -> bool)

  /** What has passed between this node and one peer: ours sent, theirs verified, the pair announced. */
  datatype Handshake = Handshake(sent: bool, username: Option<Name>, wePassed: bool, announced: bool, deadline: int) {
    predicate Complete() {
      username.Some? && wePassed
    }
  }

  function NewHandshake(now: int): Handshake {
    Handshake(false, None, false, false, now + HANDSHAKE_TIMEOUT)
  }

  datatype Why = NotEnrolled | TheyRejected(reason: string) | Refused(why: string) | TooLate

  datatype Action =
    | Send(peer: Peer, attestation: Attestation)
    | Renew(server: Peer)
    | Close(peer: Peer, why: Why)
    | Admitted(peer: Peer, username: Name)

  /** What a peer that sent its attestation is answered. */
  datatype Response = Welcome | Unwelcome(why: Why)

  datatype Input =
    | Connected(peer: Peer, now: int)
    | Disconnected(peer: Peer, stillConnected: bool)
    | Accepted(peer: Peer)
    | Rejected(peer: Peer, why: string)
    | ExchangeFailed(peer: Peer)
    | Issued(attestation: Attestation, at: int)
    | NotIssued
    | Tick(now: int, at: int, serverConnected: bool)
    | Request(peer: Peer, attestation: Attestation, now: int, at: int)

  datatype State = State(
    me: Peer, server: Option<Peer>, mine: Option<Attestation>, renewing: bool, peers: map<Peer, Handshake>)

  /** What one input has the machine do, leaving aside the order among peers. */
  datatype Outcome = Outcome(renew: Option<Peer>, send: set<Peer>, close: map<Peer, Why>, admit: Option<(Peer, Name)>)

  const QUIET := Outcome(None, {}, map[], None)

  // ---- the machine, on values ----

  function Settling(s: State, peer: Peer): (State, Option<(Peer, Name)>) {
    if peer in s.peers && s.peers[peer].Complete() && !s.peers[peer].announced
    then (s.(peers := s.peers[peer := s.peers[peer].(announced := true)]), Some((peer, s.peers[peer].username.value)))
    else (s, None)
  }

  function Unsent(s: State): set<Peer> {
    set peer | peer in s.peers && !s.peers[peer].sent
  }

  /** Send ours to those of `to` we have not sent it to, if we have one. */
  function Sending(s: State, to: set<Peer>): (State, set<Peer>) {
    var due := if s.mine.Some? then Unsent(s) * to else {};
    (s.(peers := map peer | peer in s.peers ::
           if peer in due then s.peers[peer].(sent := true) else s.peers[peer]),
     due)
  }

  function Closing(s: State, peer: Peer, why: Why): (State, Outcome) {
    if Some(peer) == s.server then (s, QUIET)
    else (s.(peers := s.peers - {peer}), QUIET.(close := map[peer := why]))
  }

  /** Whether an attestation from this peer passes, and for whom. */
  function Verdict(a: Attesting, s: State, peer: Peer, attestation: Attestation, at: int): Result<Name, Why> {
    if s.server.None? then Err(NotEnrolled)
    else
      match a.verify(attestation, peer, s.server.value, at)
      case Ok(username) => Ok(username)
      case Err(why) => Err(Refused(why))
  }

  function Overdue(s: State, now: int): set<Peer> {
    set peer | peer in s.peers && !s.peers[peer].Complete() && now >= s.peers[peer].deadline && Some(peer) != s.server
  }

  function Ticked(a: Attesting, s: State, now: int, at: int, serverConnected: bool): (State, Outcome) {
    var renews :=
      s.server.Some? && (s.mine.None? || a.needsRenewal(s.mine.value, at)) && !s.renewing && serverConnected;
    var (sent, due) := Sending(s.(renewing := s.renewing || renews), s.peers.Keys);
    var late := Overdue(sent, now);
    (sent.(peers := sent.peers - late),
     Outcome(if renews then s.server else None, due, map peer | peer in late :: TooLate, None))
  }

  function React(a: Attesting, s: State, input: Input): (State, Outcome) {
    match input
    case Connected(peer, now) =>
      if s.server.None? then Closing(s, peer, NotEnrolled)
      else if Some(peer) == s.server then (s, QUIET)
      else
        var handshake :=
          if peer in s.peers then s.peers[peer].(sent := false, deadline := now + HANDSHAKE_TIMEOUT)
          else NewHandshake(now);
        var (sent, due) := Sending(s.(peers := s.peers[peer := handshake]), {peer});
        (sent, QUIET.(send := due))
    case Disconnected(peer, stillConnected) =>
      (if stillConnected then s else s.(peers := s.peers - {peer}), QUIET)
    case Accepted(peer) =>
      var passed := if peer in s.peers then s.(peers := s.peers[peer := s.peers[peer].(wePassed := true)]) else s;
      var (settled, admit) := Settling(passed, peer);
      (settled, QUIET.(admit := admit))
    case Rejected(peer, why) => Closing(s, peer, TheyRejected(why))
    case ExchangeFailed(peer) =>
      (if peer in s.peers then s.(peers := s.peers[peer := s.peers[peer].(sent := false)]) else s, QUIET)
    case Issued(attestation, at) =>
      var idle := s.(renewing := false);
      if s.server.None? || a.verify(attestation, s.me, s.server.value, at).Err? then (idle, QUIET)
      else
        var (sent, due) := Sending(idle.(mine := Some(attestation)), s.peers.Keys);
        (sent, QUIET.(send := due))
    case NotIssued => (s.(renewing := false), QUIET)
    case Tick(now, at, serverConnected) => Ticked(a, s, now, at, serverConnected)
    case Request(peer, attestation, now, at) =>
      match Verdict(a, s, peer, attestation, at)
      case Err(why) => Closing(s, peer, why)
      case Ok(username) =>
        var entry := if peer in s.peers then s.peers[peer] else NewHandshake(now);
        var (sent, due) := Sending(s.(peers := s.peers[peer := entry.(username := Some(username))]), {peer});
        var (settled, admit) := Settling(sent, peer);
        (settled, QUIET.(send := due, admit := admit))
  }

  // ---- the running code ----

  ghost predicate NoRepeats(actions: seq<Action>) {
    forall i, j :: 0 <= i < j < |actions| ==> actions[i] != actions[j]
  }

  /** A renewal goes before sends, and these before closes and admissions. */
  function Stage(action: Action): nat {
    if action.Renew? then 0 else if action.Send? then 1 else 2
  }

  ghost predicate InStages(actions: seq<Action>) {
    forall i, j :: 0 <= i < j < |actions| ==> Stage(actions[i]) <= Stage(actions[j])
  }

  /** Every action of the one comes at an earlier stage than any of the other, or at the same. */
  ghost predicate Before(front: seq<Action>, back: seq<Action>) {
    forall x, y :: x in front && y in back ==> x != y && Stage(x) <= Stage(y)
  }

  lemma Joined(front: seq<Action>, back: seq<Action>)
    requires NoRepeats(front) && InStages(front) && NoRepeats(back) && InStages(back) && Before(front, back)
    ensures NoRepeats(front + back) && InStages(front + back)
  {
    var all := front + back;
    forall i, j | 0 <= i < j < |all| ensures all[i] != all[j] && Stage(all[i]) <= Stage(all[j]) {
      if i < |front| <= j {
        assert all[i] in front && all[j] in back;
      }
    }
  }

  /** The actions are those of the outcome, each once and in stages, a send carrying what we now hold. */
  ghost predicate Lists(actions: seq<Action>, o: Outcome, mine: Option<Attestation>) {
    && NoRepeats(actions) && InStages(actions)
    && (forall action :: action in actions <==>
          match action
          case Send(peer, attestation) => peer in o.send && mine == Some(attestation)
          case Renew(server) => o.renew == Some(server)
          case Close(peer, why) => peer in o.close && o.close[peer] == why
          case Admitted(peer, username) => o.admit == Some((peer, username)))
  }

  lemma ListsOneMore(actions: seq<Action>, sent: set<Peer>, peer: Peer, mine: Option<Attestation>)
    requires Lists(actions, QUIET.(send := sent), mine) && peer !in sent && mine.Some?
    ensures Lists(actions + [Send(peer, mine.value)], QUIET.(send := sent + {peer}), mine)
  {
    Joined(actions, [Send(peer, mine.value)]);
  }

  lemma ClosesOneMore(actions: seq<Action>, closed: set<Peer>, peer: Peer, mine: Option<Attestation>)
    requires Lists(actions, QUIET.(close := map p | p in closed :: TooLate), mine) && peer !in closed
    ensures Lists(actions + [Close(peer, TooLate)], QUIET.(close := map p | p in closed + {peer} :: TooLate), mine)
  {
    Joined(actions, [Close(peer, TooLate)]);
  }

  lemma InThreeStages(renews: seq<Action>, sends: seq<Action>, closes: seq<Action>)
    requires NoRepeats(renews) && NoRepeats(sends) && NoRepeats(closes)
    requires forall action :: action in renews ==> action.Renew?
    requires forall action :: action in sends ==> action.Send?
    requires forall action :: action in closes ==> action.Close?
    ensures NoRepeats(renews + sends + closes) && InStages(renews + sends + closes)
  {
    assert forall i :: 0 <= i < |renews| ==> renews[i] in renews;
    assert forall i :: 0 <= i < |sends| ==> sends[i] in sends;
    assert forall i :: 0 <= i < |closes| ==> closes[i] in closes;
    Joined(renews, sends);
    Joined(renews + sends, closes);
  }

  lemma TickLists(
      renew: Option<Peer>, sends: seq<Action>, due: set<Peer>, closes: seq<Action>, late: set<Peer>,
      mine: Option<Attestation>)
    requires Lists(sends, QUIET.(send := due), mine)
    requires Lists(closes, QUIET.(close := map peer | peer in late :: TooLate), mine)
    ensures Lists((if renew.Some? then [Renew(renew.value)] else []) + sends + closes,
                  Outcome(renew, due, map peer | peer in late :: TooLate, None), mine)
  {
    InThreeStages(if renew.Some? then [Renew(renew.value)] else [], sends, closes);
  }

  class Admission {
    const a: Attesting
    const me: Peer
    const server: Option<Peer>
    var mine: Option<Attestation>
    var renewing: bool
    var peers: map<Peer, Handshake>

    /** Of the stored attestation only one that verifies survives, and only if the node is enrolled. */
    constructor (a: Attesting, me: Peer, server: Option<Peer>, stored: Option<Attestation>, at: int)
      ensures this.a == a && Now().peers == map[] && !renewing && Now().me == me && Now().server == server
      ensures mine.Some? <==> stored.Some? && server.Some? && a.verify(stored.value, me, server.value, at).Ok?
      ensures mine.Some? ==> mine == stored
    {
      this.a, this.me, this.server, renewing, peers := a, me, server, false, map[];
      mine :=
        if stored.Some? && server.Some? && a.verify(stored.value, me, server.value, at).Ok? then stored else None;
    }

    function Now(): State
      reads this
    {
      State(me, server, mine, renewing, peers)
    }

    /** Drive the machine. */
    method On(input: Input) returns (actions: seq<Action>)
      modifies this
      ensures var r := React(a, old(Now()), input);
              Now() == r.0 && Lists(actions, r.1, mine)
    {
      match input {
        case Connected(peer, now) => actions := OnConnected(peer, now);
        case Disconnected(peer, stillConnected) =>
          if !stillConnected {
            peers := peers - {peer};
          }
          actions := [];
        case Accepted(peer) =>
          if peer in peers {
            peers := peers[peer := peers[peer].(wePassed := true)];
          }
          actions := Settle(peer);
        case Rejected(peer, why) => actions := CloseOff(peer, TheyRejected(why));
        case ExchangeFailed(peer) =>
          if peer in peers {
            peers := peers[peer := peers[peer].(sent := false)];
          }
          actions := [];
        case Issued(attestation, at) => actions := OnIssued(attestation, at);
        case NotIssued =>
          renewing := false;
          actions := [];
        case Tick(now, at, serverConnected) => actions := OnTick(now, at, serverConnected);
        case Request(peer, attestation, now, at) =>
          var _, done := OnRequest(peer, attestation, now, at);
          actions := done;
      }
    }

    method OnConnected(peer: Peer, now: int) returns (actions: seq<Action>)
      modifies this
      ensures var r := React(a, old(Now()), Connected(peer, now));
              Now() == r.0 && Lists(actions, r.1, mine)
    {
      if server.None? {
        actions := CloseOff(peer, NotEnrolled);
        return;
      }
      if Some(peer) == server {
        return [];
      }
      if peer in peers {
        peers := peers[peer := peers[peer].(sent := false, deadline := now + HANDSHAKE_TIMEOUT)];
      } else {
        peers := peers[peer := NewHandshake(now)];
      }
      actions := SendOurs({peer});
    }

    /** A verified attestation is welcome, gives the peer its name and, once ours is out too, announces it; any
        other is answered with what is wrong, and gets the peer closed. */
    method OnRequest(peer: Peer, attestation: Attestation, now: int, at: int)
      returns (response: Response, actions: seq<Action>)
      modifies this
      ensures response.Welcome? <==> server.Some? && a.verify(attestation, peer, server.value, at).Ok?
      ensures response.Unwelcome? ==>
                response.why == if server.None? then NotEnrolled
                                else Refused(a.verify(attestation, peer, server.value, at).error)
      ensures var r := React(a, old(Now()), Request(peer, attestation, now, at));
              Now() == r.0 && Lists(actions, r.1, mine)
    {
      var verdict := Verdict(a, Now(), peer, attestation, at);
      if verdict.Err? {
        response := Unwelcome(verdict.error);
        actions := CloseOff(peer, verdict.error);
        return;
      }
      response := Welcome;
      var entry := if peer in peers then peers[peer] else NewHandshake(now);
      peers := peers[peer := entry.(username := Some(verdict.value))];
      actions := SendOurs({peer});
      var announced := Settle(peer);
      Joined(actions, announced);
      actions := actions + announced;
    }

    method OnIssued(attestation: Attestation, at: int) returns (actions: seq<Action>)
      modifies this
      ensures var r := React(a, old(Now()), Issued(attestation, at));
              Now() == r.0 && Lists(actions, r.1, mine)
    {
      renewing := false;
      if server.None? || a.verify(attestation, me, server.value, at).Err? {
        return [];
      }
      mine := Some(attestation);
      actions := SendOurs(peers.Keys);
    }

    /** One renewal at most is asked for; afterwards nobody waits for an attestation this node has, and nobody
        but the server is late. */
    method OnTick(now: int, at: int, serverConnected: bool) returns (actions: seq<Action>)
      modifies this
      ensures var r := Ticked(a, old(Now()), now, at, serverConnected);
              Now() == r.0 && Lists(actions, r.1, mine)
    {
      var renew: seq<Action> := [];
      if server.Some? && (mine.None? || a.needsRenewal(mine.value, at)) && !renewing && serverConnected {
        renewing := true;
        renew := [Renew(server.value)];
      }
      var sends := SendOurs(peers.Keys);
      var closes := CloseOverdue(now);
      ghost var r := Ticked(a, old(Now()), now, at, serverConnected);
      TickLists(r.1.renew, sends, r.1.send, closes, r.1.close.Keys, mine);
      assert (map peer | peer in r.1.close.Keys :: TooLate) == r.1.close;
      actions := renew + sends + closes;
    }

    /** Each of these peers that has an entry and was not sent the attestation is now marked as sent to. */
    method SendOurs(to: set<Peer>) returns (actions: seq<Action>)
      modifies this
      ensures var r := Sending(old(Now()), to);
              Now() == r.0 && Lists(actions, QUIET.(send := r.1), mine)
    {
      if mine.None? {
        assert peers == map peer | peer in peers :: peers[peer];
        return [];
      }
      actions := SendEach(set peer | peer in peers && !peers[peer].sent && peer in to);
    }

    method SendEach(due: set<Peer>) returns (actions: seq<Action>)
      requires mine.Some? && due <= peers.Keys
      modifies `peers
      ensures peers
              == map peer | peer in old(peers) ::
                   if peer in due then old(peers)[peer].(sent := true) else old(peers)[peer]
      ensures Lists(actions, QUIET.(send := due), mine)
    {
      actions := [];
      var was := peers;
      var todo := due;
      while todo != {}
        invariant todo <= due && peers.Keys == was.Keys
        invariant forall peer :: peer in was ==>
                    peers[peer] == if peer in due && peer !in todo then was[peer].(sent := true) else was[peer]
        invariant Lists(actions, QUIET.(send := due - todo), mine)
        decreases |todo|
      {
        var peer :| peer in todo;
        peers := peers[peer := peers[peer].(sent := true)];
        ListsOneMore(actions, due - todo, peer, mine);
        assert due - todo + {peer} == due - (todo - {peer});
        actions := actions + [Send(peer, mine.value)];
        todo := todo - {peer};
      }
      assert due - todo == due;
    }

    method CloseOverdue(now: int) returns (actions: seq<Action>)
      modifies this
      ensures var late := Overdue(old(Now()), now);
              && Now() == old(Now()).(peers := old(peers) - late)
              && Lists(actions, QUIET.(close := map peer | peer in late :: TooLate), mine)
    {
      var expired := set peer | peer in peers && !peers[peer].Complete() && now >= peers[peer].deadline;
      ghost var late := Overdue(Now(), now);
      assert late == set peer | peer in expired && Some(peer) != server;
      actions := CloseEach(expired);
    }

    method CloseEach(expired: set<Peer>) returns (actions: seq<Action>)
      modifies this
      ensures var late := set peer | peer in expired && Some(peer) != server;
              && peers == old(peers) - late && mine == old(mine) && renewing == old(renewing)
              && Lists(actions, QUIET.(close := map peer | peer in late :: TooLate), mine)
    {
      var was := peers;
      var todo := expired;
      ghost var gone: set<Peer> := {};
      actions := [];
      while todo != {}
        invariant todo <= expired
        invariant forall peer :: peer in gone <==> peer in expired && peer !in todo && Some(peer) != server
        invariant mine == old(mine) && renewing == old(renewing) && peers == was - gone
        invariant Lists(actions, QUIET.(close := map peer | peer in gone :: TooLate), mine)
        decreases |todo|
      {
        var peer :| peer in todo;
        todo := todo - {peer};
        var closed := CloseOff(peer, TooLate);
        if Some(peer) != server {
          ClosesOneMore(actions, gone, peer, mine);
          gone := gone + {peer};
          actions := actions + closed;
        }
      }
      assert gone == set peer | peer in expired && Some(peer) != server;
    }

    method CloseOff(peer: Peer, why: Why) returns (actions: seq<Action>)
      modifies this
      ensures var r := Closing(old(Now()), peer, why);
              Now() == r.0 && Lists(actions, r.1, mine)
      ensures actions == if Some(peer) == server then [] else [Close(peer, why)]
    {
      if Some(peer) == server {
        return [];
      }
      peers := peers - {peer};
      return [Close(peer, why)];
    }

    /** Says a peer is admitted the first time its entry is complete, and never again. */
    method Settle(peer: Peer) returns (actions: seq<Action>)
      modifies this
      ensures var r := Settling(old(Now()), peer);
              Now() == r.0 && Lists(actions, QUIET.(admit := r.1), mine)
      ensures forall action :: action in actions ==> action.Admitted?
    {
      if peer !in peers || !peers[peer].Complete() || peers[peer].announced {
        return [];
      }
      peers := peers[peer := peers[peer].(announced := true)];
      return [Admitted(peer, peers[peer].username.value)];
    }
  }

  // ---- what every input keeps ----

  /** Between inputs, a peer has been announced exactly when both halves have passed. */
  ghost predicate AnnouncedIffComplete(s: State) {
    forall peer :: peer in s.peers ==> (s.peers[peer].announced <==> s.peers[peer].Complete())
  }

  lemma ReactingKeeps(a: Attesting, s: State, input: Input)
    requires AnnouncedIffComplete(s)
    ensures AnnouncedIffComplete(React(a, s, input).0)
    ensures React(a, s, input).0.server == s.server
  {
    forall peer | peer in React(a, s, input).0.peers
      ensures var entry := React(a, s, input).0.peers[peer]; entry.announced <==> entry.Complete()
    {
      OneEntryAnnounced(a, s, input, peer);
    }
  }

  lemma OneEntryAnnounced(a: Attesting, s: State, input: Input, peer: Peer)
    requires peer in s.peers ==> (s.peers[peer].announced <==> s.peers[peer].Complete())
    requires peer in React(a, s, input).0.peers
    ensures var entry := React(a, s, input).0.peers[peer]; entry.announced <==> entry.Complete()
  {
  }

  /** No close names the server, and no peer named by one has an entry afterwards. */
  lemma ServerIsNeverClosed(a: Attesting, s: State, input: Input)
    ensures var (after, o) := React(a, s, input);
            forall peer :: peer in o.close ==> Some(peer) != s.server && peer !in after.peers
  {
  }

  /** Whoever is admitted was not announced and now is, under that name. */
  lemma AdmittingAnnounces(a: Attesting, s: State, input: Input)
    ensures var (after, o) := React(a, s, input);
            o.admit.Some? ==>
              var (peer, username) := o.admit.value;
              && (peer in s.peers ==> !s.peers[peer].announced)
              && peer in after.peers && after.peers[peer].announced
              && after.peers[peer].Complete() && after.peers[peer].username == Some(username)
  {
  }

  /** Ours goes only to who has not been sent it since connecting, and only if we have one; a renewal is
      asked for only of the server, and only when none is outstanding. */
  lemma SendsAreDue(a: Attesting, s: State, input: Input)
    ensures var (after, o) := React(a, s, input);
            && (forall peer :: peer in o.send ==>
                  && after.mine.Some?
                  && (peer in s.peers && s.peers[peer].sent ==> input.Connected? && input.peer == peer)
                  && (peer in after.peers ==> after.peers[peer].sent))
            && (o.renew.Some? ==> o.renew == s.server && !s.renewing && after.renewing)
  {
  }

  /** After a tick nobody but the server is both unfinished and past the deadline, and whoever is left
      has been sent our attestation if we have one. */
  lemma TicksClearTheLate(a: Attesting, s: State, now: int, at: int, serverConnected: bool)
    ensures var (after, o) := React(a, s, Tick(now, at, serverConnected));
            && (forall peer :: peer in after.peers ==>
                  || after.peers[peer].Complete() || now < after.peers[peer].deadline || Some(peer) == s.server)
            && (forall peer :: peer in after.peers && s.mine.Some? ==> after.peers[peer].sent)
            && (forall peer :: peer in s.peers && peer !in after.peers <==> peer in o.close)
            && (forall peer :: peer in o.close ==> !s.peers[peer].Complete() && now >= s.peers[peer].deadline)
  {
  }

  /** A peer is left without ours, though we have it, only by a failed exchange. */
  lemma OnlyFailuresLeaveUnsent(a: Attesting, s: State, input: Input, peer: Peer)
    requires s.mine.Some? && peer in React(a, s, input).0.peers && !React(a, s, input).0.peers[peer].sent
    ensures input == ExchangeFailed(peer) || (peer in s.peers && !s.peers[peer].sent)
    ensures React(a, s, input).0.mine.Some?
    ensures !input.Tick?
  {
  }

  // ---- every run ----

  function After(a: Attesting, s: State, inputs: seq<Input>): State
    decreases |inputs|
  {
    if inputs == [] then s else React(a, After(a, s, inputs[..|inputs| - 1]), inputs[|inputs| - 1]).0
  }

  lemma {:induction false} EveryRunKeeps(a: Attesting, s: State, inputs: seq<Input>)
    requires AnnouncedIffComplete(s)
    ensures AnnouncedIffComplete(After(a, s, inputs)) && After(a, s, inputs).server == s.server
    decreases |inputs|
  {
    if inputs != [] {
      EveryRunKeeps(a, s, inputs[..|inputs| - 1]);
      ReactingKeeps(a, After(a, s, inputs[..|inputs| - 1]), inputs[|inputs| - 1]);
    }
  }

  /** A node that has an attestation from the start, and whose exchanges do not fail, has sent it to
      everyone it has an entry for. */
  lemma {:induction false} NobodyWaitsForOurs(a: Attesting, s: State, inputs: seq<Input>)
    requires s.mine.Some? && (forall peer :: peer in s.peers ==> s.peers[peer].sent)
    requires forall i :: 0 <= i < |inputs| ==> !inputs[i].ExchangeFailed?
    ensures var after := After(a, s, inputs);
            after.mine.Some? && forall peer :: peer in after.peers ==> after.peers[peer].sent
    decreases |inputs|
  {
    if inputs != [] {
      var front, last := inputs[..|inputs| - 1], inputs[|inputs| - 1];
      NobodyWaitsForOurs(a, s, front);
      var before := After(a, s, front);
      forall peer | peer in React(a, before, last).0.peers ensures React(a, before, last).0.peers[peer].sent {
        if !React(a, before, last).0.peers[peer].sent {
          OnlyFailuresLeaveUnsent(a, before, last, peer);
        }
      }
    }
  }

  /** The peer has an entry in every state from the one after `from` inputs to the last. */
  ghost predicate Entered(a: Attesting, s: State, inputs: seq<Input>, from: nat, peer: Peer) {
    forall m :: from <= m <= |inputs| ==> peer in After(a, s, inputs[..m]).peers
  }

  ghost predicate Admits(a: Attesting, s: State, inputs: seq<Input>, n: nat, peer: Peer, username: Name)
    requires n < |inputs|
  {
    React(a, After(a, s, inputs[..n]), inputs[n]).1.admit == Some((peer, username))
  }

  /** Once announced, a peer stays announced while it has an entry. */
  lemma {:induction false} AnnouncedStays(a: Attesting, s: State, inputs: seq<Input>, from: nat, peer: Peer)
    requires AnnouncedIffComplete(s) && from <= |inputs| && Entered(a, s, inputs, from, peer)
    requires After(a, s, inputs[..from]).peers[peer].announced
    ensures peer in After(a, s, inputs).peers && After(a, s, inputs).peers[peer].announced
    decreases |inputs|
  {
    assert inputs[..|inputs|] == inputs;
    if from < |inputs| {
      var front := inputs[..|inputs| - 1];
      assert forall m :: 0 <= m <= |front| ==> front[..m] == inputs[..m];
      assert Entered(a, s, front, from, peer);
      AnnouncedStays(a, s, front, from, peer);
      EveryRunKeeps(a, s, front);
      AnnouncedKept(a, After(a, s, front), inputs[|inputs| - 1], peer);
    }
  }

  lemma AnnouncedKept(a: Attesting, s: State, input: Input, peer: Peer)
    requires peer in s.peers && peer in React(a, s, input).0.peers && s.peers[peer].announced
    ensures React(a, s, input).0.peers[peer].announced
  {
  }

  /** A peer admitted once is not admitted again while its entry lasts. */
  lemma NotAdmittedAgain(
      a: Attesting, s: State, inputs: seq<Input>, first: nat, second: nat, peer: Peer, name: Name, again: Name)
    requires AnnouncedIffComplete(s) && first < second < |inputs|
    requires Admits(a, s, inputs, first, peer, name) && Entered(a, s, inputs[..second], first + 1, peer)
    ensures !Admits(a, s, inputs, second, peer, again)
  {
    var front := inputs[..second];
    assert front[..first + 1] == inputs[..first + 1];
    var begun := inputs[..first + 1];
    assert begun[..|begun| - 1] == inputs[..first] && begun[|begun| - 1] == inputs[first];
    AdmittingAnnounces(a, After(a, s, inputs[..first]), inputs[first]);
    AnnouncedStays(a, s, front, first + 1, peer);
    AdmittingAnnounces(a, After(a, s, front), inputs[second]);
  }

  /** Two admissions of one peer have its removal between them. */
  lemma AdmittedOncePerEntry(
      a: Attesting, s: State, inputs: seq<Input>, first: nat, second: nat, peer: Peer, name: Name, again: Name)
    requires AnnouncedIffComplete(s) && first < second < |inputs|
    requires Admits(a, s, inputs, first, peer, name) && Admits(a, s, inputs, second, peer, again)
    ensures exists m :: first < m <= second && peer !in After(a, s, inputs[..m]).peers
  {
    assert forall m :: 0 <= m <= second ==> inputs[..second][..m] == inputs[..m];
    if Entered(a, s, inputs[..second], first + 1, peer) {
      NotAdmittedAgain(a, s, inputs, first, second, peer, name, again);
      assert false;
    }
  }

  /** The peer proved to be `username`, and has had an entry since. */
  ghost predicate Vouched(a: Attesting, s: State, inputs: seq<Input>, peer: Peer, username: Name) {
    exists j :: 0 <= j < |inputs|
      && inputs[j].Request? && inputs[j].peer == peer
      && s.server.Some? && a.verify(inputs[j].attestation, peer, s.server.value, inputs[j].at) == Ok(username)
      && Entered(a, s, inputs, j + 1, peer)
  }

  /** The peer accepted what we sent, and has had an entry since. */
  ghost predicate PassedBy(a: Attesting, s: State, inputs: seq<Input>, peer: Peer) {
    exists k :: 0 <= k < |inputs| && inputs[k] == Accepted(peer) && Entered(a, s, inputs, k + 1, peer)
  }

  lemma EnteredLonger(a: Attesting, s: State, inputs: seq<Input>, input: Input, from: nat, peer: Peer)
    requires Entered(a, s, inputs, from, peer) && from <= |inputs| && peer in After(a, s, inputs + [input]).peers
    ensures Entered(a, s, inputs + [input], from, peer)
  {
    var longer := inputs + [input];
    forall m | from <= m <= |longer| ensures peer in After(a, s, longer[..m]).peers {
      if m <= |inputs| {
        assert longer[..m] == inputs[..m];
      } else {
        assert longer[..m] == longer;
      }
    }
  }

  lemma VouchedLonger(a: Attesting, s: State, inputs: seq<Input>, input: Input, peer: Peer, username: Name)
    requires Vouched(a, s, inputs, peer, username) && peer in After(a, s, inputs + [input]).peers
    ensures Vouched(a, s, inputs + [input], peer, username)
  {
    var j :| 0 <= j < |inputs|
      && inputs[j].Request? && inputs[j].peer == peer
      && s.server.Some? && a.verify(inputs[j].attestation, peer, s.server.value, inputs[j].at) == Ok(username)
      && Entered(a, s, inputs, j + 1, peer);
    EnteredLonger(a, s, inputs, input, j + 1, peer);
    assert (inputs + [input])[j] == inputs[j];
  }

  lemma PassedLonger(a: Attesting, s: State, inputs: seq<Input>, input: Input, peer: Peer)
    requires PassedBy(a, s, inputs, peer) && peer in After(a, s, inputs + [input]).peers
    ensures PassedBy(a, s, inputs + [input], peer)
  {
    var k :| 0 <= k < |inputs| && inputs[k] == Accepted(peer) && Entered(a, s, inputs, k + 1, peer);
    EnteredLonger(a, s, inputs, input, k + 1, peer);
    assert (inputs + [input])[k] == inputs[k];
  }

  /** Where a name on an entry comes from. */
  lemma NamesComeFromRequests(a: Attesting, s: State, input: Input, peer: Peer)
    requires peer in React(a, s, input).0.peers
    ensures var entry := React(a, s, input).0.peers[peer];
            entry.username.Some? ==>
              || (peer in s.peers && s.peers[peer].username == entry.username)
              || (&& input.Request? && input.peer == peer && s.server.Some?
                  && a.verify(input.attestation, peer, s.server.value, input.at) == Ok(entry.username.value))
  {
  }

  /** Where a pass on an entry comes from. */
  lemma PassesComeFromAcceptance(a: Attesting, s: State, input: Input, peer: Peer)
    requires peer in React(a, s, input).0.peers && React(a, s, input).0.peers[peer].wePassed
    ensures (peer in s.peers && s.peers[peer].wePassed) || input == Accepted(peer)
  {
  }

  /** A name on an entry was vouched for, and a pass on it was given, since the entry was made. */
  lemma {:induction false} EntriesAreEarned(a: Attesting, s: State, inputs: seq<Input>, peer: Peer)
    requires s.peers == map[] && peer in After(a, s, inputs).peers
    ensures var entry := After(a, s, inputs).peers[peer];
            && (entry.username.Some? ==> Vouched(a, s, inputs, peer, entry.username.value))
            && (entry.wePassed ==> PassedBy(a, s, inputs, peer))
    decreases |inputs|
  {
    if inputs != [] {
      var front, last := inputs[..|inputs| - 1], inputs[|inputs| - 1];
      assert inputs == front + [last];
      assert inputs[..|inputs|] == inputs;
      EveryRunKeeps(a, s, front);
      NamesComeFromRequests(a, After(a, s, front), last, peer);
      var entry := After(a, s, inputs).peers[peer];
      if entry.wePassed {
        PassesComeFromAcceptance(a, After(a, s, front), last, peer);
      }
      assert Entered(a, s, inputs, |inputs|, peer);
      if peer in After(a, s, front).peers {
        EntriesAreEarned(a, s, front, peer);
        var was := After(a, s, front).peers[peer];
        if was.username.Some? {
          VouchedLonger(a, s, front, last, peer, was.username.value);
        }
        if was.wePassed {
          PassedLonger(a, s, front, last, peer);
        }
      }
      assert inputs[|inputs| - 1] == last;
    }
  }

  /** Nobody is admitted who did not both prove the name they are admitted under and accept what we
      sent, in either order, since their entry was made. */
  lemma AdmissionIsEarned(a: Attesting, s: State, inputs: seq<Input>, n: nat, peer: Peer, username: Name)
    requires s.peers == map[] && n < |inputs| && Admits(a, s, inputs, n, peer, username)
    ensures Vouched(a, s, inputs[..n + 1], peer, username) && PassedBy(a, s, inputs[..n + 1], peer)
  {
    var run := inputs[..n + 1];
    assert run[..n] == inputs[..n] && run[n] == inputs[n];
    EveryRunKeeps(a, s, inputs[..n]);
    AdmittingAnnounces(a, After(a, s, inputs[..n]), inputs[n]);
    EntriesAreEarned(a, s, run, peer);
  }
}
