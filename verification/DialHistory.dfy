/** What whole runs of the background dialer guarantee about one peer: how far apart its
    attempts are, and which of its addresses they try. Each run is accompanied by a log
    of the dials made to each peer since its last success. */
module DialHistory {
  import opened Types
  import opened Dialing
  import opened Arithmetic

  /** A background dial: when, to which address, and which addresses were known then. */
  datatype Dial = Dial(time: nat, address: Address, known: seq<Address>)

  datatype Book = Book(state: State, clock: nat, log: map<PeerId, seq<Dial>>)

  const START := Book(INITIAL, 0, map[])

  function Streak(b: Book, p: PeerId): seq<Dial> {
    if p in b.log then b.log[p] else []
  }

  /** The address of a pending dial, read off its task. */
  function DialedAddress(s: State, p: PeerId): Address {
    if p in s.pending && s.pending[p] in s.tasks && s.tasks[s.pending[p]].address.Some?
    then s.tasks[s.pending[p]].address.value else 0
  }

  /** The dials of `p` known after a check: a success starts a new streak, and if `p` is
      chosen the check's own dial is the last one. */
  function StreakAfter(cfg: Config, b: Book, e: Event, p: PeerId): seq<Dial>
    requires e.Check? && Dialable(e.known, e.chosen)
  {
    var before := if Succeeded(b.state, p) then [] else Streak(b, p);
    if p in e.chosen then
      before + [Dial(e.now, DialedAddress(Dialing.Step(cfg, b.state, e), p), e.known[p].addresses)]
    else
      before
  }

  ghost predicate Enabled(cfg: Config, b: Book, e: Event) {
    && Dialing.Enabled(cfg, b.state, e)
    && (e.Check? ==> b.clock <= e.now)
  }

  function Step(cfg: Config, b: Book, e: Event): Book
    requires e.Check? ==> Dialable(e.known, e.chosen)
  {
    var state := Dialing.Step(cfg, b.state, e);
    if e.Check? then
      Book(state, e.now, map p | p in b.log.Keys + (set q | q in e.chosen) :: StreakAfter(cfg, b, e, p))
    else
      b.(state := state)
  }

  ghost predicate ValidRun(cfg: Config, b: Book, events: seq<Event>)
    decreases events
  {
    events != [] ==> Enabled(cfg, b, events[0]) && ValidRun(cfg, Step(cfg, b, events[0]), events[1..])
  }

  ghost function Run(cfg: Config, b: Book, events: seq<Event>): Book
    requires ValidRun(cfg, b, events)
    decreases events
  {
    if events == [] then b else Run(cfg, Step(cfg, b, events[0]), events[1..])
  }

  // ----------------------------------------------------------------- invariant

  ghost predicate Spaced(cfg: Config, dials: seq<Dial>) {
    forall i :: 0 < i < |dials| ==> dials[i - 1].time + Delay(cfg, i) < dials[i].time
  }

  ghost predicate Rotating(dials: seq<Dial>) {
    forall i :: 0 <= i < |dials| ==>
      dials[i].known != [] && dials[i].address == dials[i].known[i % |dials[i].known|]
  }

  /** The streak has one dial for each failed attempt, and one more while a dial is
      pending; the backoff reaches at least one delay past the last failed dial, and at most one
      past the last check. */
  ghost predicate StreakInv(cfg: Config, s: State, clock: nat, dials: seq<Dial>, p: PeerId) {
    && |dials| == Attempts(s, p) + (if p in s.pending then 1 else 0)
    && Spaced(cfg, dials) && Rotating(dials)
    && (forall i :: 0 <= i < |dials| ==> dials[i].time <= clock)
    && (p in s.backoffs ==>
          && Attempts(s, p) > 0
          && dials[Attempts(s, p) - 1].time + Delay(cfg, Attempts(s, p)) <= s.backoffs[p].until
          && s.backoffs[p].until <= clock + Delay(cfg, Attempts(s, p)))
  }

  ghost predicate BookInv(cfg: Config, b: Book) {
    && Inv(b.state)
    && (b.state.open ==> forall p :: StreakInv(cfg, b.state, b.clock, Streak(b, p), p))
  }

  lemma DrainAt(cfg: Config, s: State, now: nat, p: PeerId)
    requires p in s.pending ==> Accounted(s, p)
    ensures var d := Drain(cfg, s, now);
            if Succeeded(s, p) then
              p !in d.pending && p !in d.backoffs
            else if HasFailed(s, p) then
              p !in d.pending && p in d.backoffs && d.backoffs[p] == Bumped(cfg, s, p, now)
            else
              && (p in d.pending <==> p in s.pending)
              && (p in d.backoffs <==> p in s.backoffs)
              && (p in s.backoffs ==> d.backoffs[p] == s.backoffs[p])
  {
  }

  lemma DrainKeepsStreak(cfg: Config, s: State, clock: nat, dials: seq<Dial>, p: PeerId, now: nat)
    requires p in s.pending ==> Accounted(s, p)
    requires StreakInv(cfg, s, clock, dials, p) && clock <= now
    ensures StreakInv(cfg, Drain(cfg, s, now), now, if Succeeded(s, p) then [] else dials, p)
  {
    DrainAt(cfg, s, now, p);
    if HasFailed(s, p) && !Succeeded(s, p) {
      assert dials[|dials| - 1].time <= now;
    }
  }

  /** One more dial, allowed only after the backoff, keeps the streak spaced and rotating. */
  lemma DialExtendsStreak(cfg: Config, d: State, u: State, known: map<PeerId, PeerInfo>, chosen: seq<PeerId>,
                          now: nat, dials: seq<Dial>, p: PeerId)
    requires StreakInv(cfg, d, now, dials, p) && p !in d.pending
    requires p in d.backoffs ==> now > d.backoffs[p].until
    requires Started(d, u, known, chosen) && p in chosen && KeyedByPeer(known)
    ensures StreakInv(cfg, u, now, dials + [Dial(now, DialedAddress(u, p), known[p].addresses)], p)
  {
    var dial := Dial(now, DialedAddress(u, p), known[p].addresses);
    assert DialsNextAddress(d, u, known[p]);
    RotatingOneMore(dials, dial);
    if dials != [] {
      assert dials[Attempts(d, p) - 1].time + Delay(cfg, Attempts(d, p)) <= d.backoffs[p].until;
    }
    SpacedOneMore(cfg, dials, dial);
  }

  lemma SpacedOneMore(cfg: Config, dials: seq<Dial>, dial: Dial)
    requires Spaced(cfg, dials)
    requires dials != [] ==> dials[|dials| - 1].time + Delay(cfg, |dials|) < dial.time
    ensures Spaced(cfg, dials + [dial])
  {
  }

  lemma RotatingOneMore(dials: seq<Dial>, dial: Dial)
    requires Rotating(dials) && dial.known != [] && dial.address == dial.known[|dials| % |dial.known|]
    ensures Rotating(dials + [dial])
  {
  }

  lemma ChosenWasFree(cfg: Config, d: State, e: Event, p: PeerId)
    requires e.Check? && Dialable(e.known, e.chosen) && p in e.chosen
    requires MayChoose(cfg, d, e.now, e.active, e.known, e.chosen)
    ensures p !in d.pending && (p in d.backoffs ==> e.now > d.backoffs[p].until)
    ensures p in e.known && |e.known[p].addresses| > 0
  {
    var i :| 0 <= i < |e.chosen| && e.chosen[i] == p;
    assert p in EligiblePeers(cfg, d, e.now, e.active, e.known);
  }

  lemma CheckStarts(cfg: Config, s: State, e: Event)
    requires s.open && Inv(s) && e.Check? && Dialing.Enabled(cfg, s, e)
    ensures Started(Drain(cfg, s, e.now), Dialing.Step(cfg, s, e), e.known, e.chosen)
  {
    DrainKeepsInv(cfg, s, e.now);
    StartAllEffect(Drain(cfg, s, e.now), e.known, e.chosen);
  }

  lemma CheckKeepsStreak(cfg: Config, b: Book, e: Event, p: PeerId)
    requires BookInv(cfg, b) && e.Check? && Enabled(cfg, b, e)
    ensures StreakInv(cfg, Dialing.Step(cfg, b.state, e), e.now, StreakAfter(cfg, b, e, p), p)
  {
    var d, u := Drain(cfg, b.state, e.now), Dialing.Step(cfg, b.state, e);
    var before := if Succeeded(b.state, p) then [] else Streak(b, p);
    CheckStarts(cfg, b.state, e);
    DrainKeepsStreak(cfg, b.state, b.clock, Streak(b, p), p, e.now);
    if p in e.chosen {
      ChosenWasFree(cfg, d, e, p);
      DialExtendsStreak(cfg, d, u, e.known, e.chosen, e.now, before, p);
    } else {
      OthersDialsKeepStreak(cfg, d, u, e.known, e.chosen, e.now, before, p);
    }
  }

  lemma OthersDialsKeepStreak(cfg: Config, d: State, u: State, known: map<PeerId, PeerInfo>, chosen: seq<PeerId>,
                              now: nat, dials: seq<Dial>, p: PeerId)
    requires StreakInv(cfg, d, now, dials, p) && Started(d, u, known, chosen) && p !in chosen
    ensures StreakInv(cfg, u, now, dials, p)
  {
  }

  lemma OtherEventsKeepStreak(cfg: Config, b: Book, e: Event, p: PeerId)
    requires BookInv(cfg, b) && !e.Check? && Enabled(cfg, b, e)
    ensures StreakInv(cfg, Dialing.Step(cfg, b.state, e), b.clock, Streak(b, p), p)
  {
    assert StreakInv(cfg, b.state, b.clock, Streak(b, p), p);
  }

  lemma StepKeepsBookInv(cfg: Config, b: Book, e: Event)
    requires BookInv(cfg, b) && Enabled(cfg, b, e)
    ensures BookInv(cfg, Step(cfg, b, e))
  {
    var c := Step(cfg, b, e);
    StepKeepsInv(cfg, b.state, e);
    forall p | c.state.open
      ensures StreakInv(cfg, c.state, c.clock, Streak(c, p), p)
    {
      if e.Check? {
        CheckKeepsStreak(cfg, b, e, p);
        UnloggedPeerHasNoStreak(cfg, b, e, p);
      } else {
        OtherEventsKeepStreak(cfg, b, e, p);
      }
    }
  }

  lemma UnloggedPeerHasNoStreak(cfg: Config, b: Book, e: Event, p: PeerId)
    requires e.Check? && Dialable(e.known, e.chosen)
    ensures Streak(Step(cfg, b, e), p) == StreakAfter(cfg, b, e, p)
  {
  }

  lemma {:induction false} RunKeepsBookInv(cfg: Config, b: Book, events: seq<Event>)
    requires BookInv(cfg, b) && ValidRun(cfg, b, events)
    ensures BookInv(cfg, Run(cfg, b, events))
    decreases events
  {
    if events == [] {
    } else {
      StepKeepsBookInv(cfg, b, events[0]);
      RunKeepsBookInv(cfg, Step(cfg, b, events[0]), events[1..]);
    }
  }

  // ------------------------------------------------------------- main results

  /** The delays of attempts i+1 .. j. */
  function SumOfDelays(cfg: Config, i: nat, j: nat): nat
    requires i <= j
  {
    if i == j then 0 else SumOfDelays(cfg, i, j - 1) + Delay(cfg, j)
  }

  lemma {:induction false} SpacingAddsUp(cfg: Config, dials: seq<Dial>, i: nat, j: nat)
    requires Spaced(cfg, dials) && i < j < |dials|
    ensures dials[i].time + SumOfDelays(cfg, i, j) < dials[j].time
  {
    if i < j - 1 {
      SpacingAddsUp(cfg, dials, i, j - 1);
    } else {
      assert SumOfDelays(cfg, i, i) == 0;
    }
  }

  /** In any run, after k failed dials of a peer with no success in between, its next
      dial comes later than the first by more than all k delays together. */
  lemma BackoffAddsUp(cfg: Config, events: seq<Event>, p: PeerId, k: nat)
    requires ValidRun(cfg, START, events) && Run(cfg, START, events).state.open
    requires 0 < k < |Streak(Run(cfg, START, events), p)|
    ensures var dials := Streak(Run(cfg, START, events), p);
            dials[0].time + SumOfDelays(cfg, 0, k) < dials[k].time
    ensures var b := Run(cfg, START, events);
            |Streak(b, p)| == Attempts(b.state, p) + if p in b.state.pending then 1 else 0
  {
    RunKeepsBookInv(cfg, START, events);
    var b := Run(cfg, START, events);
    assert StreakInv(cfg, b.state, b.clock, Streak(b, p), p);
    SpacingAddsUp(cfg, Streak(b, p), 0, k);
  }

  /** And no longer than that: in any run, a peer with k failures in a row is past its
      backoff at every check later than the last one by more than the k-th delay alone. */
  lemma BackoffIsNoLonger(cfg: Config, events: seq<Event>, p: PeerId, now: nat)
    requires ValidRun(cfg, START, events) && Run(cfg, START, events).state.open
    requires now > Run(cfg, START, events).clock + Delay(cfg, Attempts(Run(cfg, START, events).state, p))
    ensures var s := Run(cfg, START, events).state;
            p in s.backoffs ==> s.backoffs[p].until < now
  {
    RunKeepsBookInv(cfg, START, events);
    var b := Run(cfg, START, events);
    assert StreakInv(cfg, b.state, b.clock, Streak(b, p), p);
  }

  lemma {:induction false} UncappedSum(cfg: Config, k: nat)
    requires k <= U32_MAX && cfg.step * k <= cfg.maxBackoff
    ensures SumOfDelays(cfg, 0, k) == cfg.step * Triangle(k)
  {
    if k == 0 {
    } else {
      Distribute(cfg.step, k - 1, 1);
      UncappedSum(cfg, k - 1);
      DelayIsCappedProduct(cfg, k);
      Distribute(cfg.step, Triangle(k - 1), k);
    }
  }

  /** While no delay is capped the sum is quadratic in the number of failures. */
  lemma UncappedSumIsQuadratic(cfg: Config, k: nat)
    requires k <= U32_MAX && cfg.step * k <= cfg.maxBackoff
    ensures 2 * SumOfDelays(cfg, 0, k) == cfg.step * (k * (k + 1))
  {
    UncappedSum(cfg, k);
    TriangleClosed(k);
    DoubleProduct(cfg.step, Triangle(k), k * (k + 1));
  }

  /** While the list of n addresses stays the same, any n successive dials of a streak try
      the address at each position, each position once, and the first dial of a streak
      tries the first address. If no address is listed twice, each is dialed just once. */
  lemma AddressesAreTriedInTurn(cfg: Config, events: seq<Event>, p: PeerId, first: nat, known: seq<Address>,
                                position: nat)
    returns (at: nat)
    requires ValidRun(cfg, START, events) && Run(cfg, START, events).state.open
    requires first + |known| <= |Streak(Run(cfg, START, events), p)| && position < |known|
    requires forall i :: first <= i < first + |known| ==> Streak(Run(cfg, START, events), p)[i].known == known
    ensures var dials := Streak(Run(cfg, START, events), p);
            && first <= at < first + |known| && dials[at].address == known[position]
            && (forall i :: first <= i < first + |known| && i % |known| == position ==> i == at)
            && (NoRepeats(known) ==>
                  forall i :: first <= i < first + |known| && dials[i].address == known[position] ==> i == at)
            && dials[0].known != [] && dials[0].address == dials[0].known[0]
  {
    RunKeepsBookInv(cfg, START, events);
    var b := Run(cfg, START, events);
    var dials := Streak(b, p);
    assert StreakInv(cfg, b.state, b.clock, dials, p);
    at := RotationVisitsOnce(dials, first, known, position);
  }

  lemma RotationVisitsOnce(dials: seq<Dial>, first: nat, known: seq<Address>, position: nat) returns (at: nat)
    requires Rotating(dials) && first + |known| <= |dials| && position < |known|
    requires forall i :: first <= i < first + |known| ==> dials[i].known == known
    ensures first <= at < first + |known| && dials[at].address == known[position]
    ensures forall i :: first <= i < first + |known| && i % |known| == position ==> i == at
    ensures NoRepeats(known) ==>
              forall i :: first <= i < first + |known| && dials[i].address == known[position] ==> i == at
  {
    var n := |known|;
    at := first + (position + n - first % n) % n;
    ModOfOffset(first, n, position);
    forall i | first <= i < first + n && i % n == position ensures i == at {
      ModInjectiveInWindow(i, at, n);
    }
    assert forall i :: first <= i < first + n ==> dials[i].address == known[i % n];
  }

  ghost predicate NoRepeats(addresses: seq<Address>) {
    forall i, j :: 0 <= i < j < |addresses| ==> addresses[i] != addresses[j]
  }
}
