/** The accept-wait protocol of PairingHub, under every interleaving of sockets and decisions. */
module Pairing {
  import opened Wrappers

  /** Hub state; a channel is named by a number. `pending` and `active` are set together, and
      stand for the attempt shown to the local user. */
  datatype Hub = Hub(code: string, pending: Option<nat>, wait: Option<nat>)

  /** A channel: the decisions sent on it, in order, and whether its one receiver still listens. */
  datatype Channel = Channel(log: seq<nat>, open: bool)

  // ---------- the atomic steps, as functions ----------

  function Started(code: string): Hub {
    Hub(code, None, None)
  }

  /** The first half of decide: a clone of the sender, if there is one. */
  function SenderOf(h: Hub): Result<nat, OpError> {
    match h.wait case Some(c) => Ok(c) case None => Err(NotFound)
  }

  function WaitBegun(h: Hub, channel: nat): Hub {
    h.(wait := Some(channel))
  }

  function PendingSet(h: Hub, attempt: nat): Hub {
    h.(pending := Some(attempt))
  }

  const CLEARED := Hub("", None, None)

  const NEW_CHANNEL := Channel([], true)

  /** The second half of decide: sending fails once the receiver is gone. */
  function Sending(ch: Channel, decision: nat): (Channel, bool) {
    if ch.open then (ch.(log := ch.log + [decision]), true) else (ch, false)
  }

  /** recv_timeout: the first message, if any came in time; the receiver is dropped either way. */
  function Receiving(ch: Channel): (Channel, Option<nat>) {
    (ch.(open := false), if ch.log == [] then None else Some(ch.log[0]))
  }

  // ---------- the classes ----------

  /** The hub's methods, each atomic under its mutex. Channel numbers come from the caller. */
  class PairingHub {
    var code: string
    var pending: Option<nat>
    var active: Option<nat>
    var waitAccept: Option<nat>

    ghost predicate Valid()
      reads this
    {
      active == pending
    }

    ghost function State(): Hub
      reads this
    {
      Hub(code, pending, waitAccept)
    }

    constructor ()
      ensures Valid() && State() == CLEARED
    {
      code, pending, active, waitAccept := "", None, None, None;
    }

    method Start(newCode: string)
      modifies this
      ensures Valid() && State() == Started(newCode)
    {
      code := newCode;
      pending, active, waitAccept := None, None, None;
    }

    method TakeSender() returns (channel: Result<nat, OpError>)
      ensures channel == SenderOf(State())
    {
      if waitAccept.None? { return Err(NotFound); }
      return Ok(waitAccept.value);
    }

    method BeginAcceptWait(channel: nat)
      requires Valid()
      modifies this
      ensures Valid() && State() == WaitBegun(old(State()), channel)
    {
      waitAccept := Some(channel);
    }

    method SetPending(attempt: nat)
      requires Valid()
      modifies this
      ensures Valid() && State() == PendingSet(old(State()), attempt)
    {
      pending, active := Some(attempt), Some(attempt);
    }

    method ClearPairing()
      modifies this
      ensures Valid() && State() == CLEARED
    {
      pending, active, waitAccept := None, None, None;
      code := "";
    }
  }

  /** One mpsc channel, made by a wait and shared with the senders cloned from it. */
  class AcceptChannel {
    var log: seq<nat>
    var open: bool

    ghost function State(): Channel
      reads this
    {
      Channel(log, open)
    }

    constructor ()
      ensures State() == NEW_CHANNEL
    {
      log, open := [], true;
    }

    method Send(decision: nat) returns (sent: bool)
      modifies this
      ensures (State(), sent) == Sending(old(State()), decision)
    {
      if !open { return false; }
      log := log + [decision];
      return true;
    }

    /** The wait of one socket, at the moment it ends. */
    method Receive() returns (first: Option<nat>)
      modifies this
      ensures (State(), first) == Receiving(old(State()))
    {
      open := false;
      first := None;
      if |log| > 0 { first := Some(log[0]); }
    }
  }

  // ---------- the protocol ----------

  /** A socket's way through handle_pairing. */
  datatype Attempt =
    | Arrived(seen: string, presented: string)
    | Refused
    | Waiting(seen: string, presented: string, channel: nat)
    | Shown(seen: string, presented: string, channel: nat)
    | Decided(seen: string, presented: string, channel: nat, accept: bool)
    | Done(seen: string, presented: string, channel: nat, accept: bool)

  /** A call to decide: holding a cloned sender, then sent or failed. */
  datatype Decision = Holding(accept: bool, channel: nat) | Sent(accept: bool, channel: nat) | Failed(accept: bool)

  datatype System = System(hub: Hub, attempts: map<nat, Attempt>, decisions: map<nat, Decision>,
                           channels: map<nat, Channel>)

  datatype Step =
    | StartStep(code: string)
    | ArriveStep(attempt: nat, presented: string)   // reads hub.code
    | CompareStep(attempt: nat)                     // wrong code: refused
    | BeginStep(attempt: nat, channel: nat)
    | ShowStep(attempt: nat)
    | ReceiveStep(attempt: nat)                     // recv_timeout returns a message
    | GiveUpStep(attempt: nat)                      // it times out, or all senders are gone
    | ClearStep(attempt: nat)
    | TakeStep(decision: nat, accept: bool)         // decide, under the lock
    | SendStep(decision: nat)                       // decide, after it

  predicate Enabled(s: System, st: Step) {
    match st
    case StartStep(_) => true
    case ArriveStep(a, presented) => a !in s.attempts && s.hub.code != "" && presented != ""
    case CompareStep(a) => a in s.attempts && s.attempts[a].Arrived? && s.attempts[a].presented != s.attempts[a].seen
    case BeginStep(a, c) => a in s.attempts && s.attempts[a].Arrived? && s.attempts[a].presented == s.attempts[a].seen
      && c !in s.channels
    case ShowStep(a) => a in s.attempts && s.attempts[a].Waiting?
    case ReceiveStep(a) => a in s.attempts && s.attempts[a].Shown? && s.attempts[a].channel in s.channels
      && s.channels[s.attempts[a].channel].log != []
    case GiveUpStep(a) => a in s.attempts && s.attempts[a].Shown? && s.attempts[a].channel in s.channels
      && s.channels[s.attempts[a].channel].log == []
    case ClearStep(a) => a in s.attempts && s.attempts[a].Decided?
    case TakeStep(d, _) => d !in s.decisions
    case SendStep(d) => d in s.decisions && s.decisions[d].Holding? && s.decisions[d].channel in s.channels
  }

  function Next(s: System, st: Step): System
    requires Enabled(s, st)
  {
    match st
    case StartStep(code) => s.(hub := Started(code))
    case ArriveStep(a, presented) => s.(attempts := s.attempts[a := Arrived(s.hub.code, presented)])
    case CompareStep(a) => s.(attempts := s.attempts[a := Refused])
    case BeginStep(a, c) =>
      s.(hub := WaitBegun(s.hub, c), channels := s.channels[c := NEW_CHANNEL],
         attempts := s.attempts[a := Waiting(s.attempts[a].seen, s.attempts[a].presented, c)])
    case ShowStep(a) =>
      var t := s.attempts[a];
      s.(hub := PendingSet(s.hub, a), attempts := s.attempts[a := Shown(t.seen, t.presented, t.channel)])
    case ReceiveStep(a) => EndWait(s, a)
    case GiveUpStep(a) => EndWait(s, a)
    case ClearStep(a) =>
      var t := s.attempts[a];
      s.(hub := CLEARED, attempts := s.attempts[a := Done(t.seen, t.presented, t.channel, t.accept)])
    case TakeStep(d, accept) =>
      var held :=
        match SenderOf(s.hub)
        case Ok(c) => Holding(accept, c)
        case Err(_) => Failed(accept);
      s.(decisions := s.decisions[d := held])
    case SendStep(d) =>
      var h := s.decisions[d];
      var (ch, sent) := Sending(s.channels[h.channel], d);
      s.(decisions := s.decisions[d := if sent then Sent(h.accept, h.channel) else Failed(h.accept)],
         channels := s.channels[h.channel := ch])
  }

  /** The end of one socket's wait: with the first decision sent to it, or with a refusal. */
  function EndWait(s: System, a: nat): System
    requires a in s.attempts && s.attempts[a].Shown? && s.attempts[a].channel in s.channels
  {
    var t := s.attempts[a];
    var (ch, first) := Receiving(s.channels[t.channel]);
    var accept := match first case None => false case Some(d) => AcceptOf(s, d);
    s.(attempts := s.attempts[a := Decided(t.seen, t.presented, t.channel, accept)],
       channels := s.channels[t.channel := ch])
  }

  function AcceptOf(s: System, d: nat): bool {
    d in s.decisions && s.decisions[d].accept
  }

  ghost predicate Run(first: System, steps: seq<Step>, last: System)
    decreases |steps|
  {
    if steps == [] then last == first
    else Enabled(first, steps[0]) && Run(Next(first, steps[0]), steps[1..], last)
  }

  const IDLE := System(CLEARED, map[], map[], map[])

  predicate HasChannel(t: Attempt) {
    t.Waiting? || t.Shown? || t.Decided? || t.Done?
  }

  /** Channels belong to one attempt each, and an attempt with a channel presented the code it saw. */
  ghost predicate OwnChannels(s: System) {
    && (forall a <- s.attempts | HasChannel(s.attempts[a]) ::
          s.attempts[a].channel in s.channels && s.attempts[a].presented == s.attempts[a].seen != "")
    && (forall a, b | a in s.attempts && b in s.attempts && a != b && HasChannel(s.attempts[a])
        && HasChannel(s.attempts[b]) ::
          s.attempts[a].channel != s.attempts[b].channel)
    && (forall a <- s.attempts | s.attempts[a].Arrived? :: s.attempts[a].seen != "")
  }

  /** Messages on a channel were sent there by decisions that stand. */
  ghost predicate HonestLogs(s: System) {
    forall c <- s.channels, i | 0 <= i < |s.channels[c].log| ::
      s.channels[c].log[i] in s.decisions && s.decisions[s.channels[c].log[i]].Sent?
        && s.decisions[s.channels[c].log[i]].channel == c
  }

  /** Who was accepted took a `true` as the first message of its own channel. */
  ghost predicate HonestAccepts(s: System) {
    forall a <- s.attempts | (s.attempts[a].Decided? || s.attempts[a].Done?) && s.attempts[a].accept :: AcceptedBy(s, a)
  }

  /** Senders point at channels that exist. */
  ghost predicate LiveSenders(s: System) {
    && (s.hub.wait.Some? ==> s.hub.wait.value in s.channels)
    && (forall d <- s.decisions | s.decisions[d].Holding? :: s.decisions[d].channel in s.channels)
  }

  ghost predicate Inv(s: System) {
    OwnChannels(s) && HonestLogs(s) && HonestAccepts(s) && LiveSenders(s)
  }

  /** The first message of the attempt's own channel is a `true` sent there. */
  ghost predicate AcceptedBy(s: System, a: nat)
    requires a in s.attempts && (s.attempts[a].Decided? || s.attempts[a].Done?)
  {
    var c := s.attempts[a].channel;
    c in s.channels && s.channels[c].log != []
    && var d := s.channels[c].log[0];
       d in s.decisions && s.decisions[d] == Sent(true, c)
  }

  lemma StepKeepsChannels(s: System, st: Step)
    requires OwnChannels(s) && Enabled(s, st)
    ensures OwnChannels(Next(s, st))
  {
  }

  lemma StepKeepsLogs(s: System, st: Step)
    requires HonestLogs(s) && LiveSenders(s) && Enabled(s, st)
    ensures HonestLogs(Next(s, st))
  {
  }

  lemma StepKeepsAccepts(s: System, st: Step)
    requires HonestLogs(s) && HonestAccepts(s) && Enabled(s, st)
    ensures HonestAccepts(Next(s, st))
  {
  }

  lemma StepKeepsSenders(s: System, st: Step)
    requires LiveSenders(s) && Enabled(s, st)
    ensures LiveSenders(Next(s, st))
  {
  }

  lemma StepKeepsInv(s: System, st: Step)
    requires Inv(s) && Enabled(s, st)
    ensures Inv(Next(s, st))
  {
    hide OwnChannels, HonestLogs, HonestAccepts, LiveSenders, Next;
    StepKeepsChannels(s, st);
    StepKeepsLogs(s, st);
    StepKeepsAccepts(s, st);
    StepKeepsSenders(s, st);
  }

  lemma {:induction false} RunKeepsInv(first: System, steps: seq<Step>, last: System)
    requires Inv(first) && Run(first, steps, last)
    ensures Inv(last)
    decreases |steps|
  {
    if steps != [] {
      StepKeepsInv(first, steps[0]);
      RunKeepsInv(Next(first, steps[0]), steps[1..], last);
    }
  }

  // ---------- what an attempt saw ----------

  /** A step neither forgets an attempt nor changes what it saw and presented. */
  ghost predicate SameClaim(t: Attempt, u: Attempt) {
    u.Refused? || (!t.Refused? && u.seen == t.seen && u.presented == t.presented)
  }

  lemma {:induction false} ClaimStays(first: System, steps: seq<Step>, last: System, a: nat)
    requires Run(first, steps, last) && a in first.attempts
    ensures a in last.attempts && SameClaim(first.attempts[a], last.attempts[a])
    decreases |steps|
  {
    if steps != [] {
      assert a in Next(first, steps[0]).attempts && SameClaim(first.attempts[a], Next(first, steps[0]).attempts[a]);
      ClaimStays(Next(first, steps[0]), steps[1..], last, a);
    }
  }

  /** Somewhere in the run the attempt arrived, at a hub that held just this code. */
  ghost predicate ArrivedAt(first: System, steps: seq<Step>, a: nat, presented: string, code: string) {
    exists k: nat, mid :: ArrivedHere(first, steps, a, presented, code, k, mid)
  }

  ghost predicate ArrivedHere(first: System, steps: seq<Step>, a: nat, presented: string, code: string, k: nat,
                              mid: System)
  {
    k < |steps| && Run(first, steps[..k], mid) && steps[k] == ArriveStep(a, presented) && mid.hub.code == code
  }

  lemma {:induction false} SeenAtArrival(first: System, steps: seq<Step>, last: System, a: nat)
    requires Run(first, steps, last) && a !in first.attempts && a in last.attempts && !last.attempts[a].Refused?
    ensures ArrivedAt(first, steps, a, last.attempts[a].presented, last.attempts[a].seen)
    decreases |steps|
  {
    var t := last.attempts[a];
    var next := Next(first, steps[0]);
    if a in next.attempts {
      ClaimStays(next, steps[1..], last, a);
      assert steps[..0] == [] && Run(first, [], first);
      assert ArrivedHere(first, steps, a, t.presented, t.seen, 0, first);
    } else {
      SeenAtArrival(next, steps[1..], last, a);
      var k: nat, mid :| ArrivedHere(next, steps[1..], a, t.presented, t.seen, k, mid);
      assert steps[..k + 1][1..] == steps[1..][..k] && steps[..k + 1][0] == steps[0];
      assert Run(first, steps[..k + 1], mid);
      assert ArrivedHere(first, steps, a, t.presented, t.seen, k + 1, mid);
    }
  }

  /** Over every interleaving: an accepted attempt presented the very code the hub held when it
      arrived, and took as the first message of its channel a `true` that one decision had sent
      there; two accepted attempts were accepted by two different decisions. */
  lemma AcceptedWasDecided(steps: seq<Step>, s: System, a: nat)
    requires Run(IDLE, steps, s) && a in s.attempts && s.attempts[a].Done? && s.attempts[a].accept
    ensures s.attempts[a].presented != "" && ArrivedAt(IDLE, steps, a, s.attempts[a].presented, s.attempts[a].presented)
    ensures AcceptedBy(s, a)
    ensures forall b <- s.attempts | b != a && s.attempts[b].Done? && s.attempts[b].accept ::
              AcceptedBy(s, b) && s.channels[s.attempts[b].channel].log[0] != s.channels[s.attempts[a].channel].log[0]
  {
    hide Run, Next;
    RunKeepsInv(IDLE, steps, s);
    SeenAtArrival(IDLE, steps, s, a);
    forall b <- s.attempts | b != a && s.attempts[b].Done? && s.attempts[b].accept
      ensures AcceptedBy(s, b) && s.channels[s.attempts[b].channel].log[0] != s.channels[s.attempts[a].channel].log[0]
    {
      assert HasChannel(s.attempts[a]) && HasChannel(s.attempts[b]);
    }
  }

  /** No step but a new wait arms the hub. */
  predicate ArmsHub(st: Step) {
    st.BeginStep?
  }

  lemma {:induction false} StaysDisarmed(first: System, steps: seq<Step>, last: System)
    requires first.hub.wait == None && Run(first, steps, last) && (forall st <- steps :: !ArmsHub(st))
    ensures last.hub.wait == None
    decreases |steps|
  {
    if steps != [] {
      assert steps[0] in steps;
      forall st <- steps[1..] ensures !ArmsHub(st) { assert st in steps; }
      StaysDisarmed(Next(first, steps[0]), steps[1..], last);
    }
  }

  /** Once any attempt has cleared, every later decide fails until some attempt begins a new wait -
      also for attempts that are still being shown. */
  lemma DecideFailsUntilNewWait(s: System, a: nat, steps: seq<Step>, last: System, d: nat, accept: bool)
    requires Enabled(s, ClearStep(a)) && Run(Next(s, ClearStep(a)), steps, last) && (forall st <- steps :: !ArmsHub(st))
    requires d !in last.decisions
    ensures Next(last, TakeStep(d, accept)).decisions[d] == Failed(accept)
  {
    StaysDisarmed(Next(s, ClearStep(a)), steps, last);
  }
}
