/** Background dialing as a state machine: oneshot channels, connecting tasks, pending
    dials and backoff, with connectivity checks, connect requests, inbound connections
    and task completions in any order. */
module Dialing {
  import opened Types

  // ------------------------------------------------------ durations and backoff

  const U32_MAX: nat := 0xFFFF_FFFF

  /** u64 seconds and 999_999_999 nanoseconds, in nanoseconds. */
  const DURATION_MAX: nat := 0xFFFF_FFFF_FFFF_FFFF * 1_000_000_000 + 999_999_999

  type Duration = d: nat | d <= DURATION_MAX

  function Min(a: nat, b: nat): nat { if a <= b then a else b }
  function Max(a: nat, b: nat): nat { if a <= b then b else a }
  function SaturatingSub(a: nat, b: nat): nat { if a <= b then 0 else a - b }

  function SaturatingMul(d: Duration, k: nat): Duration {
    if d * k <= DURATION_MAX then d * k else DURATION_MAX
  }

  function ToU32(n: nat): nat {
    if n <= U32_MAX then n else U32_MAX
  }

  datatype Config = Config(own: PeerId, step: Duration, maxBackoff: Duration, dialLimit: nat)

  function Delay(cfg: Config, attempts: nat): nat {
    Min(cfg.maxBackoff, SaturatingMul(cfg.step, ToU32(attempts)))
  }

  /** The saturating computation is the capped product over the integers, until the
      attempts no longer fit in 32 bits. */
  lemma DelayIsCappedProduct(cfg: Config, attempts: nat)
    ensures attempts <= U32_MAX ==> Delay(cfg, attempts) == Min(cfg.maxBackoff, cfg.step * attempts)
    ensures attempts > U32_MAX ==> Delay(cfg, attempts) == Min(cfg.maxBackoff, cfg.step * U32_MAX)
  {
  }

  /** Earliest time (exclusive) of the next attempt, and the number of failed attempts. */
  datatype Backoff = Backoff(until: nat, attempts: nat)

  function UpdateBackoff(cfg: Config, b: Backoff, now: nat): Backoff {
    Backoff(now + Delay(cfg, b.attempts + 1), b.attempts + 1)
  }

  function NewBackoff(cfg: Config, now: nat): Backoff {
    UpdateBackoff(cfg, Backoff(now, 0), now)
  }

  // ------------------------------------------------------------------- states

  datatype DialOutcome = Connected(peer: PeerId) | Failed

  /** A oneshot channel seen from its receiver. */
  datatype Channel = Empty | Filled(outcome: DialOutcome) | Dropped

  datatype Task = Task(oneshot: Option<nat>, expected: Option<PeerId>, address: Option<Address>)

  datatype State = State(
    open: bool,
    pending: map<PeerId, nat>,
    backoffs: map<PeerId, Backoff>,
    tasks: map<nat, Task>,
    channels: map<nat, Channel>,
    next: nat)

  const INITIAL := State(true, map[], map[], map[], map[], 0)

  function Attempts(s: State, p: PeerId): nat {
    if p in s.backoffs then s.backoffs[p].attempts else 0
  }

  /** What try_recv finds for a pending dial. */
  function Received(s: State, p: PeerId): Channel
    requires p in s.pending
  {
    if s.pending[p] in s.channels then s.channels[s.pending[p]] else Dropped
  }

  predicate Succeeded(s: State, p: PeerId) {
    p in s.pending && Received(s, p).Filled? && Received(s, p).outcome.Connected?
  }

  predicate HasFailed(s: State, p: PeerId) {
    p in s.pending && Received(s, p).Filled? && Received(s, p).outcome.Failed?
  }

  function Bumped(cfg: Config, s: State, p: PeerId, now: nat): Backoff {
    if p in s.backoffs then UpdateBackoff(cfg, s.backoffs[p], now) else NewBackoff(cfg, now)
  }

  /** The backoff of a peer once the result of its dial, if any, is taken into account. */
  function SettledBackoff(cfg: Config, s: State, p: PeerId, now: nat): Option<Backoff> {
    if Succeeded(s, p) then None
    else if HasFailed(s, p) then Some(Bumped(cfg, s, p, now))
    else if p in s.backoffs then Some(s.backoffs[p])
    else None
  }

  /** All completed dials taken out of the pending ones, and their backoffs settled. */
  function Drain(cfg: Config, s: State, now: nat): State {
    s.(pending := map p | p in s.pending && Received(s, p).Empty? :: s.pending[p],
       backoffs := map p | p in s.backoffs.Keys + s.pending.Keys && SettledBackoff(cfg, s, p, now).Some? ::
                     SettledBackoff(cfg, s, p, now).value)
  }

  /** The drain finds a channel whose sender is gone, or a success for another peer. */
  ghost predicate DrainPanics(s: State) {
    exists p :: p in s.pending
      && (Received(s, p).Dropped? || (Succeeded(s, p) && Received(s, p).outcome.peer != p))
  }

  predicate Eligible(cfg: Config, s: State, now: nat, active: set<PeerId>, info: PeerInfo) {
    && info.affinity.High?
    && info.peer != cfg.own
    && info.addresses != []
    && info.peer !in active
    && info.peer !in s.pending
    && (info.peer in s.backoffs ==> now > s.backoffs[info.peer].until)
  }

  function EligiblePeers(cfg: Config, s: State, now: nat, active: set<PeerId>,
                         known: map<PeerId, PeerInfo>): set<PeerId>
  {
    set p | p in known && Eligible(cfg, s, now, active, known[p])
  }

  ghost predicate KeyedByPeer(known: map<PeerId, PeerInfo>) {
    forall p :: p in known ==> known[p].peer == p
  }

  function NumberToDial(cfg: Config, s: State, eligible: nat): nat {
    Min(eligible, SaturatingSub(cfg.dialLimit, |s.tasks|))
  }

  function Spawn(s: State, task: Task): State {
    s.(tasks := s.tasks[s.next := task], next := s.next + 1)
  }

  function StartDial(s: State, info: PeerInfo): State
    requires info.addresses != []
  {
    var address := info.addresses[Attempts(s, info.peer) % |info.addresses|];
    Spawn(s, Task(Some(s.next), Some(info.peer), Some(address)))
      .(channels := s.channels[s.next := Empty], pending := s.pending[info.peer := s.next])
  }

  predicate Dialable(known: map<PeerId, PeerInfo>, chosen: seq<PeerId>) {
    forall i :: 0 <= i < |chosen| ==> chosen[i] in known && known[chosen[i]].addresses != []
  }

  function StartAll(s: State, known: map<PeerId, PeerInfo>, chosen: seq<PeerId>): State
    requires Dialable(known, chosen)
  {
    if chosen == [] then s
    else StartDial(StartAll(s, known, chosen[..|chosen| - 1]), known[chosen[|chosen| - 1]])
  }

  // ------------------------------------------------------------------- events

  datatype Event =
    | Check(now: nat, active: set<PeerId>, known: map<PeerId, PeerInfo>, chosen: seq<PeerId>)
    | ConnectRequest(address: Address, expected: Option<PeerId>)
    | Incoming
    | Completed(task: nat, outcome: DialOutcome)
    | Shutdown

  /** Which peers a check may dial: distinct eligible ones, as many as the limit allows. */
  ghost predicate MayChoose(cfg: Config, s: State, now: nat, active: set<PeerId>, known: map<PeerId, PeerInfo>,
                            chosen: seq<PeerId>)
  {
    var eligible := EligiblePeers(cfg, s, now, active, known);
    && KeyedByPeer(known)
    && (forall i :: 0 <= i < |chosen| ==> chosen[i] in eligible)
    && (forall i, j :: 0 <= i < j < |chosen| ==> chosen[i] != chosen[j])
    && |chosen| == NumberToDial(cfg, s, |eligible|)
  }

  ghost predicate Enabled(cfg: Config, s: State, e: Event) {
    && s.open
    && match e
       case Check(now, active, known, chosen) =>
         && Dialable(known, chosen)
         && MayChoose(cfg, Drain(cfg, s, now), now, active, known, chosen)
       case Completed(t, outcome) =>
         && t in s.tasks
         && (outcome.Connected? && s.tasks[t].expected.Some? ==> outcome.peer == s.tasks[t].expected.value)
       case _ => true
  }

  function Step(cfg: Config, s: State, e: Event): State
    requires e.Check? ==> Dialable(e.known, e.chosen)
  {
    match e
    case Check(now, active, known, chosen) =>
      StartAll(Drain(cfg, s, now), known, chosen)
    case ConnectRequest(address, expected) =>
      Spawn(s, Task(Some(s.next), expected, Some(address))).(channels := s.channels[s.next := Empty])
    case Incoming =>
      Spawn(s, Task(None, None, None))
    case Completed(t, outcome) =>
      s.(tasks := s.tasks - {t},
         channels := if t in s.tasks && s.tasks[t].oneshot.Some?
                     then s.channels[s.tasks[t].oneshot.value := Filled(outcome)]
                     else s.channels)
    case Shutdown =>
      s.(open := false,
         tasks := map[],
         channels := map c | c in s.channels :: if s.channels[c].Empty? then Dropped else s.channels[c])
  }

  ghost predicate ValidRun(cfg: Config, s: State, events: seq<Event>)
    decreases events
  {
    events != [] ==> Enabled(cfg, s, events[0]) && ValidRun(cfg, Step(cfg, s, events[0]), events[1..])
  }

  ghost function Run(cfg: Config, s: State, events: seq<Event>): State
    requires ValidRun(cfg, s, events)
    decreases events
  {
    if events == [] then s else Run(cfg, Step(cfg, s, events[0]), events[1..])
  }

  // ----------------------------------------------------------------- invariant

  function Holders(s: State, channel: nat): set<nat> {
    set t | t in s.tasks && s.tasks[t].oneshot == Some(channel)
  }

  /** A pending dial is either held by exactly one task, which dials that peer, or its
      result has been delivered, names that peer, and no task holds it. */
  ghost predicate Accounted(s: State, p: PeerId)
    requires p in s.pending
  {
    match Received(s, p)
    case Empty => exists t :: Holders(s, s.pending[p]) == {t} && s.tasks[t].expected == Some(p)
    case Filled(outcome) => Holders(s, s.pending[p]) == {} && (outcome.Connected? ==> outcome.peer == p)
    case Dropped => false
  }

  /** Channels and tasks are numbered as they are created, and never shared. */
  ghost predicate Numbered(s: State) {
    && (forall p :: p in s.pending ==> s.pending[p] in s.channels)
    && (forall c :: c in s.channels ==> c < s.next)
    && (forall t :: t in s.tasks ==> t < s.next)
    && (forall t :: t in s.tasks && s.tasks[t].oneshot.Some? ==> s.tasks[t].oneshot.value in s.channels)
    && (forall p, q :: p in s.pending && q in s.pending && p != q ==> s.pending[p] != s.pending[q])
    && (forall t, u :: t in s.tasks && u in s.tasks && t != u && s.tasks[t].oneshot.Some? ==>
          s.tasks[t].oneshot != s.tasks[u].oneshot)
  }

  ghost predicate Inv(s: State) {
    s.open ==> Numbered(s) && forall p :: p in s.pending ==> Accounted(s, p)
  }

  lemma InvExcludesPanic(s: State)
    requires s.open && Inv(s)
    ensures !DrainPanics(s)
  {
    forall p | p in s.pending
      ensures !(Received(s, p).Dropped? || (Succeeded(s, p) && Received(s, p).outcome.peer != p))
    {
      assert Accounted(s, p);
    }
  }

  lemma DrainKeepsInv(cfg: Config, s: State, now: nat)
    requires s.open && Inv(s)
    ensures Drain(cfg, s, now).open && Inv(Drain(cfg, s, now))
  {
    var d := Drain(cfg, s, now);
    forall p | p in d.pending ensures Accounted(d, p) {
      assert Accounted(s, p) && Holders(d, d.pending[p]) == Holders(s, s.pending[p]);
    }
  }

  /** A new task with a fresh channel disturbs no pending dial. */
  lemma SpawnKeepsAccounted(s: State, u: State, task: Task, p: PeerId)
    requires Numbered(s) && p in s.pending && Accounted(s, p)
    requires task.oneshot == None || task.oneshot == Some(s.next)
    requires u.tasks == s.tasks[s.next := task]
    requires forall c :: c in s.channels ==> c in u.channels && u.channels[c] == s.channels[c]
    requires p in u.pending && u.pending[p] == s.pending[p]
    ensures Accounted(u, p)
  {
    assert Holders(u, u.pending[p]) == Holders(s, s.pending[p]);
  }

  lemma StartDialKeepsNumbered(s: State, info: PeerInfo)
    requires Numbered(s) && info.addresses != []
    ensures Numbered(StartDial(s, info))
  {
  }

  lemma StartDialKeepsInv(s: State, info: PeerInfo)
    requires s.open && Inv(s) && info.addresses != [] && info.peer !in s.pending
    ensures StartDial(s, info).open && Inv(StartDial(s, info))
  {
    var u := StartDial(s, info);
    StartDialKeepsNumbered(s, info);
    forall p | p in u.pending ensures Accounted(u, p) {
      if p == info.peer {
        assert Holders(u, s.next) == {s.next};
      } else {
        SpawnKeepsAccounted(s, u, u.tasks[s.next], p);
      }
    }
  }

  /** The pending dial of a peer is held by a task for that peer, which tries the address
      at the position given by the attempts so far. */
  ghost predicate DialsNextAddress(s: State, u: State, info: PeerInfo) {
    && info.addresses != []
    && info.peer in u.pending && u.pending[info.peer] in u.tasks
    && u.tasks[u.pending[info.peer]].address == Some(info.addresses[Attempts(s, info.peer) % |info.addresses|])
  }

  /** What a sequence of dials does: exactly the chosen peers become pending, one task
      each, and the backoffs are left alone. */
  ghost predicate Started(s: State, u: State, known: map<PeerId, PeerInfo>, chosen: seq<PeerId>) {
    && u.backoffs == s.backoffs
    && (forall p :: p in u.pending <==> p in s.pending || p in chosen)
    && |u.tasks| == |s.tasks| + |chosen|
    && (forall p :: p in chosen ==> p in known && DialsNextAddress(s, u, known[p]))
  }

  lemma StartedOneMore(s: State, u: State, known: map<PeerId, PeerInfo>, chosen: seq<PeerId>, p: PeerId)
    requires Started(s, u, known, chosen) && Numbered(u) && KeyedByPeer(known)
    requires p in known && known[p].addresses != [] && p !in chosen
    ensures Started(s, StartDial(u, known[p]), known, chosen + [p])
  {
    var v := StartDial(u, known[p]);
    assert u.next !in u.tasks;
    forall q | q in chosen + [p] ensures q in known && DialsNextAddress(s, v, known[q]) {
      if q != p {
        assert q in chosen && DialsNextAddress(s, u, known[q]);
      }
    }
    assert forall q :: q in chosen + [p] <==> q in chosen || q == p;
  }

  lemma {:induction false} StartAllEffect(s: State, known: map<PeerId, PeerInfo>, chosen: seq<PeerId>)
    requires Dialable(known, chosen) && KeyedByPeer(known)
    requires s.open && Inv(s)
    requires forall i :: 0 <= i < |chosen| ==> chosen[i] !in s.pending
    requires forall i, j :: 0 <= i < j < |chosen| ==> chosen[i] != chosen[j]
    ensures var u := StartAll(s, known, chosen); u.open && Inv(u) && Started(s, u, known, chosen)
  {
    if chosen == [] {
    } else {
      var init, last := chosen[..|chosen| - 1], chosen[|chosen| - 1];
      assert chosen == init + [last] && last !in init;
      StartAllEffect(s, known, init);
      var mid := StartAll(s, known, init);
      StartDialKeepsInv(mid, known[last]);
      StartedOneMore(s, mid, known, init, last);
    }
  }

  /** Dialing only adds tasks. */
  lemma {:induction false} StartAllKeepsTasks(s: State, known: map<PeerId, PeerInfo>, chosen: seq<PeerId>)
    requires Dialable(known, chosen)
    ensures s.tasks.Keys <= StartAll(s, known, chosen).tasks.Keys
  {
    if chosen == [] {
    } else {
      StartAllKeepsTasks(s, known, chosen[..|chosen| - 1]);
    }
  }

  lemma StepKeepsTasks(cfg: Config, s: State, e: Event)
    requires !e.Completed? && !e.Shutdown? && (e.Check? ==> Dialable(e.known, e.chosen))
    ensures s.tasks.Keys <= Step(cfg, s, e).tasks.Keys
  {
    if e.Check? {
      StartAllKeepsTasks(Drain(cfg, s, e.now), e.known, e.chosen);
    }
  }

  lemma CompletedKeepsInv(cfg: Config, s: State, t: nat, outcome: DialOutcome)
    requires Inv(s) && Enabled(cfg, s, Completed(t, outcome))
    ensures Inv(Step(cfg, s, Completed(t, outcome)))
  {
    var u := Step(cfg, s, Completed(t, outcome));
    var task := s.tasks[t];
    forall p | p in u.pending ensures Accounted(u, p) {
      assert Accounted(s, p);
      var c := s.pending[p];
      if task.oneshot == Some(c) {
        assert t in Holders(s, c);
        assert Holders(u, c) == Holders(s, c) - {t};
        var holder :| Holders(s, c) == {holder} && s.tasks[holder].expected == Some(p);
        assert holder == t by { assert t in {holder}; }
      } else {
        assert Holders(u, c) == Holders(s, c);
      }
    }
  }

  lemma StepKeepsInv(cfg: Config, s: State, e: Event)
    requires Inv(s) && Enabled(cfg, s, e)
    ensures Inv(Step(cfg, s, e))
  {
    match e
    case Check(now, active, known, chosen) =>
      DrainKeepsInv(cfg, s, now);
      StartAllEffect(Drain(cfg, s, now), known, chosen);
    case ConnectRequest(address, expected) =>
      var u := Step(cfg, s, e);
      forall p | p in u.pending ensures Accounted(u, p) {
        SpawnKeepsAccounted(s, u, u.tasks[s.next], p);
      }
    case Incoming =>
      var u := Step(cfg, s, e);
      forall p | p in u.pending ensures Accounted(u, p) {
        SpawnKeepsAccounted(s, u, u.tasks[s.next], p);
      }
    case Completed(t, outcome) => CompletedKeepsInv(cfg, s, t, outcome);
    case Shutdown =>
  }

  /** The event may happen in the one state and leads to the other. */
  ghost predicate Leads(cfg: Config, s: State, e: Event, u: State) {
    Enabled(cfg, s, e) && u == Step(cfg, s, e)
  }

  lemma CheckKeepsInv(cfg: Config, s: State, e: Event, u: State)
    requires Inv(s) && e.Check? && Leads(cfg, s, e, u)
    ensures Inv(u) && s.tasks.Keys <= u.tasks.Keys
  {
    StepKeepsInv(cfg, s, e);
    StepKeepsTasks(cfg, s, e);
  }

  lemma {:induction false} RunKeepsInv(cfg: Config, s: State, events: seq<Event>)
    requires Inv(s) && ValidRun(cfg, s, events)
    ensures Inv(Run(cfg, s, events))
    decreases events
  {
    if events == [] {
    } else {
      StepKeepsInv(cfg, s, events[0]);
      RunKeepsInv(cfg, Step(cfg, s, events[0]), events[1..]);
    }
  }

  /** In every run of the event loop before shutdown the drain never panics: each
      pending dial is accounted for. */
  lemma DrainNeverPanics(cfg: Config, events: seq<Event>)
    requires ValidRun(cfg, INITIAL, events) && Run(cfg, INITIAL, events).open
    ensures var s := Run(cfg, INITIAL, events);
            && !DrainPanics(s)
            && forall p :: p in s.pending ==> Accounted(s, p)
  {
    RunKeepsInv(cfg, INITIAL, events);
    InvExcludesPanic(Run(cfg, INITIAL, events));
  }

  /** Why "before shutdown" matters: the drain would panic after a shutdown exactly if the
      shutdown found a dial in flight, which then lost its sender. */
  lemma ShutdownDropsDialsInFlight(cfg: Config, s: State)
    requires s.open && Inv(s)
    ensures DrainPanics(Step(cfg, s, Shutdown)) <==> exists p :: p in s.pending && Received(s, p).Empty?
  {
    var u := Step(cfg, s, Shutdown);
    forall p | p in s.pending ensures Received(u, p).Dropped? <==> Received(s, p).Empty? {
      assert Accounted(s, p);
    }
    if p :| p in s.pending && Received(s, p).Empty? {
      assert Received(u, p).Dropped?;
    }
    forall p | p in u.pending && Succeeded(u, p) ensures Received(u, p).outcome.peer == p {
      assert Accounted(s, p) && Received(s, p) == Received(u, p);
    }
  }

  /** Each check starts exactly as many dials as there are eligible peers, up to the
      limit, to pairwise distinct peers that were eligible and were not pending; it
      never leaves more tasks than there were or than the limit. */
  lemma CheckDialsWithinLimit(cfg: Config, s: State, e: Event)
    requires s.open && Inv(s) && e.Check? && Enabled(cfg, s, e)
    ensures var d := Drain(cfg, s, e.now);
            var u := Step(cfg, s, e);
            var eligible := EligiblePeers(cfg, d, e.now, e.active, e.known);
            var newly := u.pending.Keys - d.pending.Keys;
            && newly <= eligible
            && |newly| == |u.tasks| - |s.tasks| == Min(|eligible|, SaturatingSub(cfg.dialLimit, |s.tasks|))
            && |u.tasks| <= Max(|s.tasks|, cfg.dialLimit)
            && (newly == eligible || |u.tasks| >= cfg.dialLimit)
  {
    DrainKeepsInv(cfg, s, e.now);
    var d := Drain(cfg, s, e.now);
    StartAllEffect(d, e.known, e.chosen);
    var u := Step(cfg, s, e);
    var eligible := EligiblePeers(cfg, d, e.now, e.active, e.known);
    var newly := u.pending.Keys - d.pending.Keys;
    NewlyPending(d, u, e.known, e.chosen);
    assert newly <= eligible;
    SubsetOfSameSize(newly, eligible);
  }

  /** Who is dialed, in terms of what is known of the peers: each newly dialed one is of High
      affinity, is not oneself, has an address, is not active and is past its backoff, and
      unless the limit is reached every such peer is being dialed afterwards. */
  lemma CheckDialsTheRightPeers(cfg: Config, s: State, e: Event, u: State)
    requires s.open && Inv(s) && e.Check? && Leads(cfg, s, e, u)
    ensures forall p :: p in u.pending && p !in Drain(cfg, s, e.now).pending ==>
              && p in e.known && e.known[p].affinity == High && e.known[p].addresses != []
              && p != cfg.own && p !in e.active
              && (p in u.backoffs ==> u.backoffs[p].until < e.now)
    ensures |u.tasks| < cfg.dialLimit ==>
              forall p :: p in e.known && e.known[p].affinity == High && e.known[p].addresses != []
                          && p != cfg.own && p !in e.active
                          && (p in u.backoffs ==> u.backoffs[p].until < e.now)
                          ==> p in u.pending
    ensures u.backoffs == Drain(cfg, s, e.now).backoffs && Drain(cfg, s, e.now).pending.Keys <= u.pending.Keys
  {
    var d := Drain(cfg, s, e.now);
    var eligible := EligiblePeers(cfg, d, e.now, e.active, e.known);
    CheckDialsEligible(cfg, s, e);
    forall p ensures p in eligible <==>
                       && p !in d.pending
                       && p in e.known && e.known[p].affinity == High && e.known[p].addresses != []
                       && p != cfg.own && p !in e.active
                       && (p in d.backoffs ==> d.backoffs[p].until < e.now)
    {
      EligibleInFull(cfg, d, e, p);
    }
  }

  lemma EligibleInFull(cfg: Config, d: State, e: Event, p: PeerId)
    requires e.Check? && KeyedByPeer(e.known)
    ensures p in EligiblePeers(cfg, d, e.now, e.active, e.known) <==>
              && p !in d.pending
              && p in e.known && e.known[p].affinity == High && e.known[p].addresses != []
              && p != cfg.own && p !in e.active
              && (p in d.backoffs ==> d.backoffs[p].until < e.now)
  {
  }

  lemma CheckDialsEligible(cfg: Config, s: State, e: Event)
    requires s.open && Inv(s) && e.Check? && Enabled(cfg, s, e)
    ensures var d := Drain(cfg, s, e.now);
            var u := Step(cfg, s, e);
            var eligible := EligiblePeers(cfg, d, e.now, e.active, e.known);
            && u.backoffs == d.backoffs && d.pending.Keys <= u.pending.Keys
            && (forall p :: p in u.pending && p !in d.pending ==> p in eligible)
            && (|u.tasks| < cfg.dialLimit ==> forall p :: p in eligible ==> p in u.pending)
  {
    CheckDialsWithinLimit(cfg, s, e);
    DrainKeepsInv(cfg, s, e.now);
    var d, u := Drain(cfg, s, e.now), Step(cfg, s, e);
    StartAllEffect(d, e.known, e.chosen);
    var newly := u.pending.Keys - d.pending.Keys;
    assert forall p :: p in u.pending && p !in d.pending ==> p in newly;
  }

  // ------------------------------------------------- from the end of a dial to the check

  /** Nothing but a check or shutdown touches a dial whose result has been delivered. */
  lemma {:induction false} ResultStays(cfg: Config, s: State, events: seq<Event>, p: PeerId)
    requires s.open && Inv(s) && ValidRun(cfg, s, events)
    requires forall i :: 0 <= i < |events| ==> !events[i].Check? && !events[i].Shutdown?
    requires p in s.pending && Received(s, p).Filled?
    ensures var u := Run(cfg, s, events);
            && u.open && Inv(u) && p in u.pending && u.pending[p] == s.pending[p]
            && Received(u, p) == Received(s, p) && u.backoffs == s.backoffs
    decreases events
  {
    if events == [] {
    } else {
      var m := Step(cfg, s, events[0]);
      StepKeepsInv(cfg, s, events[0]);
      OneStepKeepsResult(cfg, s, events[0], p);
      ResultStays(cfg, m, events[1..], p);
    }
  }

  lemma OneStepKeepsResult(cfg: Config, s: State, e: Event, p: PeerId)
    requires s.open && Inv(s) && Enabled(cfg, s, e) && !e.Check? && !e.Shutdown?
    requires p in s.pending && Received(s, p).Filled?
    ensures var u := Step(cfg, s, e);
            && u.open && p in u.pending && u.pending[p] == s.pending[p]
            && Received(u, p) == Received(s, p) && u.backoffs == s.backoffs
  {
    assert Accounted(s, p) && s.pending[p] in s.channels;
    assert e.Completed? ==> e.task !in Holders(s, s.pending[p]);
  }

  /** A task delivers its outcome to its own dial. */
  lemma CompletionIsReceived(cfg: Config, s: State, t: nat, outcome: DialOutcome, p: PeerId)
    requires s.open && Inv(s) && Enabled(cfg, s, Completed(t, outcome))
    requires p in s.pending && s.tasks[t].oneshot == Some(s.pending[p])
    ensures var u := Step(cfg, s, Completed(t, outcome));
            && u.open && Inv(u) && p in u.pending && u.pending[p] == s.pending[p]
            && Received(u, p) == Filled(outcome) && u.backoffs == s.backoffs
  {
    StepKeepsInv(cfg, s, Completed(t, outcome));
  }

  lemma DrainSettles(cfg: Config, s: State, now: nat, p: PeerId)
    requires p in s.pending && Received(s, p).Filled?
    ensures var d := Drain(cfg, s, now);
            && p !in d.pending && d.next == s.next
            && match Received(s, p).outcome
               case Connected(_) => p !in d.backoffs
               case Failed =>
                 && p in d.backoffs && d.backoffs[p].attempts == Attempts(s, p) + 1
                 && d.backoffs[p].until == now + Delay(cfg, Attempts(s, p) + 1)
  {
  }

  lemma RedialHasNewChannel(cfg: Config, s: State, e: Event, p: PeerId)
    requires e.Check? && Enabled(cfg, s, e) && Inv(s) && p in s.pending && Received(s, p).Filled?
    ensures p in Step(cfg, s, e).pending ==> Step(cfg, s, e).pending[p] != s.pending[p]
  {
    DrainSettles(cfg, s, e.now, p);
    StartAllGivesNewChannels(Drain(cfg, s, e.now), e.known, e.chosen, p);
    assert s.pending[p] in s.channels;
  }

  lemma NextCheckSettles(cfg: Config, s: State, e: Event, p: PeerId)
    requires s.open && Inv(s) && e.Check? && Enabled(cfg, s, e)
    requires p in s.pending && Received(s, p).Filled?
    ensures var u := Step(cfg, s, e);
            && (p in u.pending ==> u.pending[p] != s.pending[p])
            && match Received(s, p).outcome
               case Connected(_) => p !in u.backoffs
               case Failed =>
                 && p in u.backoffs && Attempts(u, p) == Attempts(s, p) + 1
                 && u.backoffs[p].until == e.now + Delay(cfg, Attempts(s, p) + 1)
                 && p !in u.pending
  {
    RedialHasNewChannel(cfg, s, e, p);
    DrainSettles(cfg, s, e.now, p);
    CheckDialsEligible(cfg, s, e);
    EligibleInFull(cfg, Drain(cfg, s, e.now), e, p);
  }

  lemma {:induction false} StartAllGivesNewChannels(s: State, known: map<PeerId, PeerInfo>, chosen: seq<PeerId>,
      p: PeerId)
    requires Dialable(known, chosen) && p !in s.pending
    ensures var u := StartAll(s, known, chosen);
            s.next <= u.next && (p in u.pending ==> s.next <= u.pending[p])
  {
    if chosen == [] {
    } else {
      StartAllGivesNewChannels(s, known, chosen[..|chosen| - 1], p);
    }
  }

  /** The task ends with the outcome, and then anything may happen but a check or shutdown. */
  ghost predicate EndsWith(cfg: Config, s: State, t: nat, outcome: DialOutcome, between: seq<Event>, r: State) {
    && s.open && Inv(s) && Enabled(cfg, s, Completed(t, outcome))
    && (forall i :: 0 <= i < |between| ==> !between[i].Check? && !between[i].Shutdown?)
    && ValidRun(cfg, Step(cfg, s, Completed(t, outcome)), between)
    && r == Run(cfg, Step(cfg, s, Completed(t, outcome)), between)
  }

  lemma ResultWaits(cfg: Config, s: State, t: nat, outcome: DialOutcome, p: PeerId, between: seq<Event>, r: State)
    requires EndsWith(cfg, s, t, outcome, between, r)
    requires p in s.pending && s.tasks[t].oneshot == Some(s.pending[p])
    ensures r.open && Inv(r) && p in r.pending && r.pending[p] == s.pending[p]
    ensures Received(r, p) == Filled(outcome) && Attempts(r, p) == Attempts(s, p)
  {
    CompletionIsReceived(cfg, s, t, outcome, p);
    ResultStays(cfg, Step(cfg, s, Completed(t, outcome)), between, p);
  }

  /** What the end of a background dial means for the peer, whatever happens between it and
      the next check: a connection clears its backoff; a failure counts as one more, makes it
      wait for exactly the delay of that many failures, and it is not dialed meanwhile. */
  lemma DialEndsWithNextCheck(cfg: Config, s: State, t: nat, outcome: DialOutcome, p: PeerId, between: seq<Event>,
                              r: State, e: Event)
    requires EndsWith(cfg, s, t, outcome, between, r)
    requires p in s.pending && s.tasks[t].oneshot == Some(s.pending[p])
    requires e.Check? && Enabled(cfg, r, e)
    ensures var u := Step(cfg, r, e);
            && (p in u.pending ==> u.pending[p] != s.pending[p])
            && match outcome
               case Connected(_) => p !in u.backoffs
               case Failed =>
                 && p in u.backoffs && Attempts(u, p) == Attempts(s, p) + 1
                 && u.backoffs[p].until == e.now + Delay(cfg, Attempts(s, p) + 1)
                 && p !in u.pending
  {
    ResultWaits(cfg, s, t, outcome, p, between, r);
    NextCheckSettles(cfg, r, e, p);
  }

  lemma NewlyPending(s: State, u: State, known: map<PeerId, PeerInfo>, chosen: seq<PeerId>)
    requires Started(s, u, known, chosen)
    requires forall i :: 0 <= i < |chosen| ==> chosen[i] !in s.pending
    requires forall i, j :: 0 <= i < j < |chosen| ==> chosen[i] != chosen[j]
    ensures var newly := u.pending.Keys - s.pending.Keys;
            && |newly| == |chosen|
            && forall p :: p in newly ==> p in chosen
  {
    var newly := u.pending.Keys - s.pending.Keys;
    assert forall p :: p in newly <==> p in chosen;
    DistinctCount(chosen, newly);
  }

  lemma {:induction false} DistinctCount(xs: seq<PeerId>, s: set<PeerId>)
    requires forall i, j :: 0 <= i < j < |xs| ==> xs[i] != xs[j]
    requires forall p :: p in s <==> p in xs
    ensures |s| == |xs|
  {
    if xs == [] {
      assert s == {};
    } else {
      var last := xs[|xs| - 1];
      assert xs == xs[..|xs| - 1] + [last];
      DistinctCount(xs[..|xs| - 1], s - {last});
      assert s == (s - {last}) + {last};
    }
  }

  lemma SubsetOfSameSize(a: set<PeerId>, b: set<PeerId>)
    requires a <= b
    ensures |a| <= |b| && (|a| == |b| ==> a == b)
  {
    assert b == a + (b - a);
  }
}
