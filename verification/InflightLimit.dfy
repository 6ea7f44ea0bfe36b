/** The per-peer limit on requests in flight: one semaphore for each peer, shared by all
    services made from one layer, under any interleaving of arrivals, completions and
    cancellations. */
module InflightLimit {
  import opened Types
  import opened Messages

  datatype WaitMode = Block | ReturnError

  /** A fair counting semaphore: the calls that hold a permit, and those that wait. */
  datatype Semaphore = Semaphore(permits: nat, holders: set<nat>, waiters: seq<nat>)

  type Limiter = map<PeerId, Semaphore>

  datatype Verdict = Started | Waiting | Rejected(code: StatusCode)

  datatype Event =
    | Arrive(call: nat, from: Option<PeerId>, mode: WaitMode)
    | Finish(call: nat, peer: PeerId)
    | Cancel(call: nat, peer: PeerId)

  // --------------------------------------------------------------- semaphore

  function Acquire(s: Semaphore, call: nat): Semaphore {
    if s.permits > 0 then s.(permits := s.permits - 1, holders := s.holders + {call})
    else s.(waiters := s.waiters + [call])
  }

  /** A released permit goes to the first waiter, if there is one. */
  function Release(s: Semaphore, call: nat): Semaphore {
    if s.waiters == [] then s.(permits := s.permits + 1, holders := s.holders - {call})
    else s.(holders := s.holders - {call} + {s.waiters[0]}, waiters := s.waiters[1..])
  }

  function Without(calls: seq<nat>, call: nat): seq<nat> {
    if calls == [] then []
    else if calls[0] == call then Without(calls[1..], call)
    else [calls[0]] + Without(calls[1..], call)
  }

  function GiveUp(s: Semaphore, call: nat): Semaphore {
    if call in s.holders then Release(s, call) else s.(waiters := Without(s.waiters, call))
  }

  // ------------------------------------------------------------------- steps

  function At(l: Limiter, p: PeerId, max: nat): Semaphore {
    if p in l then l[p] else Semaphore(max, {}, [])
  }

  function Decide(l: Limiter, max: nat, e: Event): Verdict
    requires e.Arrive?
  {
    if e.from.None? then Rejected(InternalServerError)
    else if At(l, e.from.value, max).permits > 0 then Started
    else if e.mode.Block? then Waiting
    else Rejected(TooManyRequests)
  }

  function Step(l: Limiter, max: nat, e: Event): Limiter {
    match e
    case Arrive(call, None, _) => l
    case Arrive(call, Some(p), mode) =>
      var s := At(l, p, max);
      l[p := if mode.ReturnError? && s.permits == 0 then s else Acquire(s, call)]
    case Finish(call, p) => l[p := Release(At(l, p, max), call)]
    case Cancel(call, p) => l[p := GiveUp(At(l, p, max), call)]
  }

  /** A call arrives once; only a running call finishes, and only one that arrived there
      and still runs or waits is cancelled. */
  ghost predicate Enabled(l: Limiter, max: nat, e: Event) {
    match e
    case Arrive(call, None, _) => true
    case Arrive(call, Some(p), _) => call !in At(l, p, max).holders && call !in At(l, p, max).waiters
    case Finish(call, p) => call in At(l, p, max).holders
    case Cancel(call, p) => call in At(l, p, max).holders || call in At(l, p, max).waiters
  }

  ghost predicate ValidRun(l: Limiter, max: nat, events: seq<Event>)
    decreases events
  {
    events != [] ==> Enabled(l, max, events[0]) && ValidRun(Step(l, max, events[0]), max, events[1..])
  }

  function Run(l: Limiter, max: nat, events: seq<Event>): Limiter
    decreases events
  {
    if events == [] then l else Run(Step(l, max, events[0]), max, events[1..])
  }

  // --------------------------------------------------------------- invariant

  /** Permits are conserved, and nobody waits while a permit is free. */
  ghost predicate SemaphoreInv(s: Semaphore, max: nat) {
    && s.permits + |s.holders| == max
    && (s.waiters != [] ==> s.permits == 0)
    && (forall i :: 0 <= i < |s.waiters| ==> s.waiters[i] !in s.holders)
    && (forall i, j :: 0 <= i < j < |s.waiters| ==> s.waiters[i] != s.waiters[j])
  }

  ghost predicate Inv(l: Limiter, max: nat) {
    forall p :: p in l ==> SemaphoreInv(l[p], max)
  }

  lemma {:induction false} WithoutKeepsOrder(calls: seq<nat>, call: nat)
    requires forall i, j :: 0 <= i < j < |calls| ==> calls[i] != calls[j]
    ensures forall c :: c in Without(calls, call) <==> c in calls && c != call
    ensures forall i, j :: 0 <= i < j < |Without(calls, call)| ==> Without(calls, call)[i] != Without(calls, call)[j]
  {
    if calls == [] {
    } else {
      WithoutKeepsOrder(calls[1..], call);
      var rest := Without(calls[1..], call);
      assert forall c :: c in calls <==> c == calls[0] || c in calls[1..];
      if calls[0] != call {
        forall i | 0 <= i < |rest| ensures rest[i] != calls[0] {
          assert rest[i] in rest;
        }
      }
    }
  }

  lemma GiveUpKeepsInv(s: Semaphore, max: nat, call: nat)
    requires SemaphoreInv(s, max) && (call in s.holders || call in s.waiters)
    ensures SemaphoreInv(GiveUp(s, call), max)
  {
    if call in s.holders {
      ReleaseKeepsInv(s, max, call);
    } else {
      WithoutKeepsOrder(s.waiters, call);
      var rest := Without(s.waiters, call);
      forall i | 0 <= i < |rest| ensures rest[i] !in s.holders {
        assert rest[i] in rest;
      }
    }
  }

  lemma ReleaseKeepsInv(s: Semaphore, max: nat, call: nat)
    requires SemaphoreInv(s, max) && call in s.holders
    ensures SemaphoreInv(Release(s, call), max)
  {
    if s.waiters != [] {
      assert |s.holders - {call} + {s.waiters[0]}| == |s.holders|;
    }
  }

  lemma AcquireKeepsInv(s: Semaphore, max: nat, call: nat)
    requires SemaphoreInv(s, max) && call !in s.holders && call !in s.waiters
    ensures SemaphoreInv(Acquire(s, call), max)
  {
  }

  lemma AtIsInv(l: Limiter, max: nat, p: PeerId)
    requires Inv(l, max)
    ensures SemaphoreInv(At(l, p, max), max)
  {
  }

  lemma UpdateKeepsInv(l: Limiter, max: nat, p: PeerId, s: Semaphore)
    requires Inv(l, max) && SemaphoreInv(s, max)
    ensures Inv(l[p := s], max)
  {
  }

  lemma StepKeepsInv(l: Limiter, max: nat, e: Event)
    requires Inv(l, max) && Enabled(l, max, e)
    ensures Inv(Step(l, max, e), max)
  {
    match e {
      case Arrive(call, from, mode) =>
        if from.Some? {
          var s := At(l, from.value, max);
          AtIsInv(l, max, from.value);
          AcquireKeepsInv(s, max, call);
          UpdateKeepsInv(l, max, from.value, s);
          UpdateKeepsInv(l, max, from.value, Acquire(s, call));
        }
      case Finish(call, p) =>
        AtIsInv(l, max, p);
        ReleaseKeepsInv(At(l, p, max), max, call);
        UpdateKeepsInv(l, max, p, Release(At(l, p, max), call));
      case Cancel(call, p) =>
        AtIsInv(l, max, p);
        GiveUpKeepsInv(At(l, p, max), max, call);
        UpdateKeepsInv(l, max, p, GiveUp(At(l, p, max), call));
    }
  }

  lemma {:induction false} RunKeepsInv(l: Limiter, max: nat, events: seq<Event>)
    requires Inv(l, max) && ValidRun(l, max, events)
    ensures Inv(Run(l, max, events), max)
    decreases events
  {
    if events == [] {
    } else {
      StepKeepsInv(l, max, events[0]);
      RunKeepsInv(Step(l, max, events[0]), max, events[1..]);
    }
  }

  // ------------------------------------------------------------ main results

  /** In every reachable state and for each peer, free permits and running calls add up to
      the limit, and a call waits only while the limit is reached. */
  lemma PermitsAreConserved(max: nat, events: seq<Event>, p: PeerId)
    requires ValidRun(map[], max, events)
    ensures var s := At(Run(map[], max, events), p, max);
            && s.permits + |s.holders| == max
            && |s.holders| <= max
            && (s.waiters != [] ==> |s.holders| == max)
  {
    RunKeepsInv(map[], max, events);
  }

  /** Without waiting, a call is rejected as one too many exactly if its peer already has
      the maximum running; a request of an unknown peer is an internal error. */
  lemma RejectedExactlyAtLimit(max: nat, events: seq<Event>, e: Event)
    requires ValidRun(map[], max, events) && e.Arrive? && e.mode.ReturnError?
    ensures var l := Run(map[], max, events);
            && (Decide(l, max, e) == Rejected(TooManyRequests) <==>
                  e.from.Some? && |At(l, e.from.value, max).holders| == max)
            && (Decide(l, max, e) == Rejected(InternalServerError) <==> e.from.None?)
            && (Decide(l, max, e).Started? && Enabled(l, max, e) ==>
                  At(Step(l, max, e), e.from.value, max).holders == At(l, e.from.value, max).holders + {e.call})
            && (!Decide(l, max, e).Started? ==> forall p :: At(Step(l, max, e), p, max) == At(l, p, max))
  {
    RunKeepsInv(map[], max, events);
    if e.from.Some? {
      PermitsAreConserved(max, events, e.from.value);
    }
  }

  /** The verdict says where the call is afterwards: running, waiting, or neither; only a
      request without a sender is an internal error, and only without waiting is a call one
      too many. */
  lemma VerdictSaysWhereTheCallIs(l: Limiter, max: nat, call: nat, p: PeerId, mode: WaitMode)
    requires Inv(l, max) && Enabled(l, max, Arrive(call, Some(p), mode))
    ensures var verdict := Decide(l, max, Arrive(call, Some(p), mode));
            var s := At(Step(l, max, Arrive(call, Some(p), mode)), p, max);
            && (verdict == Started <==> call in s.holders)
            && (verdict == Waiting <==> call in s.waiters)
            && (verdict.Rejected? <==> mode == ReturnError && |At(l, p, max).holders| == max)
            && (verdict.Rejected? ==> verdict == Rejected(TooManyRequests))
    ensures Decide(l, max, Arrive(call, None, mode)) == Rejected(InternalServerError)
  {
    AtIsInv(l, max, p);
    var s := At(l, p, max);
    assert (s.waiters + [call])[|s.waiters|] == call;
  }

  // ------------------------------------------------------- every call is accounted for

  ghost predicate Present(l: Limiter, max: nat, p: PeerId, c: nat) {
    c in At(l, p, max).holders || c in At(l, p, max).waiters
  }

  /** The call arrives at the peer and is not turned away. */
  ghost predicate IsLetIn(l: Limiter, max: nat, e: Event, p: PeerId, c: nat) {
    && e.Arrive? && e.call == c && e.from == Some(p)
    && !(e.mode == ReturnError && |At(l, p, max).holders| == max)
  }

  lemma ReleaseAccounts(s: Semaphore, call: nat, c: nat)
    requires call in s.holders && call !in s.waiters
    ensures var u := Release(s, call);
            c in u.holders || c in u.waiters <==> (c in s.holders || c in s.waiters) && c != call
  {
    if s.waiters != [] {
      assert s.waiters == [s.waiters[0]] + s.waiters[1..];
    }
  }

  lemma GiveUpAccounts(s: Semaphore, max: nat, call: nat, c: nat)
    requires SemaphoreInv(s, max) && (call in s.holders || call in s.waiters)
    ensures var u := GiveUp(s, call);
            c in u.holders || c in u.waiters <==> (c in s.holders || c in s.waiters) && c != call
  {
    if call in s.holders {
      ReleaseAccounts(s, call, c);
    } else {
      WithoutKeepsOrder(s.waiters, call);
    }
  }

  lemma AcquireAccounts(s: Semaphore, call: nat, c: nat)
    ensures var u := Acquire(s, call);
            c in u.holders || c in u.waiters <==> c in s.holders || c in s.waiters || c == call
  {
    assert (s.waiters + [call])[|s.waiters|] == call;
    assert forall d :: d in s.waiters + [call] <==> d in s.waiters || d == call;
  }

  lemma StepAccounts(l: Limiter, max: nat, e: Event, p: PeerId, c: nat)
    requires Inv(l, max) && Enabled(l, max, e)
    ensures Present(Step(l, max, e), max, p, c) <==>
              IsLetIn(l, max, e, p, c) || (Present(l, max, p, c) && e != Finish(c, p) && e != Cancel(c, p))
  {
    var s := At(l, p, max);
    AtIsInv(l, max, p);
    if Concerns(e, p) {
      match e
      case Arrive(call, _, _) => AcquireAccounts(s, call, c);
      case Finish(call, _) => ReleaseAccounts(s, call, c);
      case Cancel(call, _) => GiveUpAccounts(s, max, call, c);
    }
  }

  /** The call was let in at position i of the run and has neither finished nor been
      cancelled since. */
  ghost predicate UnderWaySince(max: nat, events: seq<Event>, p: PeerId, c: nat, i: nat) {
    && i < |events| && IsLetIn(Run(map[], max, events[..i]), max, events[i], p, c)
    && forall j :: i < j < |events| ==> events[j] != Finish(c, p) && events[j] != Cancel(c, p)
  }

  lemma UnderWayOneMore(max: nat, events: seq<Event>, e: Event, p: PeerId, c: nat)
    ensures (exists i: nat :: UnderWaySince(max, events + [e], p, c, i)) <==>
              || IsLetIn(Run(map[], max, events), max, e, p, c)
              || ((exists i: nat :: UnderWaySince(max, events, p, c, i)) && e != Finish(c, p) && e != Cancel(c, p))
  {
    var more := events + [e];
    forall i: nat | i < |events| ensures more[..i] == events[..i] && more[i] == events[i] {}
    assert more[..|events|] == events && more[|events|] == e;
    if IsLetIn(Run(map[], max, events), max, e, p, c) {
      assert UnderWaySince(max, more, p, c, |events|);
    }
    if i: nat :| UnderWaySince(max, events, p, c, i) && e != Finish(c, p) && e != Cancel(c, p) {
      assert UnderWaySince(max, more, p, c, i);
    }
    if i: nat :| UnderWaySince(max, more, p, c, i) && i < |events| {
      assert UnderWaySince(max, events, p, c, i);
    }
  }

  lemma {:induction false} RunComposes(l: Limiter, max: nat, first: seq<Event>, second: seq<Event>)
    ensures Run(l, max, first + second) == Run(Run(l, max, first), max, second)
    ensures ValidRun(l, max, first + second) <==>
            ValidRun(l, max, first) && ValidRun(Run(l, max, first), max, second)
    decreases first
  {
    if first == [] {
      assert first + second == second;
    } else {
      assert (first + second)[0] == first[0] && (first + second)[1..] == first[1..] + second;
      RunComposes(Step(l, max, first[0]), max, first[1..], second);
    }
  }

  lemma LastStep(max: nat, init: seq<Event>, e: Event)
    requires ValidRun(map[], max, init + [e])
    ensures ValidRun(map[], max, init) && Enabled(Run(map[], max, init), max, e)
    ensures Run(map[], max, init + [e]) == Step(Run(map[], max, init), max, e)
  {
    assert [e][1..] == [];
    RunComposes(map[], max, init, [e]);
  }

  lemma {:induction false} PresentExactlyIfUnderWay(max: nat, events: seq<Event>, p: PeerId, c: nat)
    requires ValidRun(map[], max, events)
    ensures Present(Run(map[], max, events), max, p, c) <==> exists i: nat :: UnderWaySince(max, events, p, c, i)
  {
    if events == [] {
    } else {
      var init, e := events[..|events| - 1], events[|events| - 1];
      assert events == init + [e];
      LastStep(max, init, e);
      RunKeepsInv(map[], max, init);
      PresentExactlyIfUnderWay(max, init, p, c);
      StepAccounts(Run(map[], max, init), max, e, p, c);
      UnderWayOneMore(max, init, e, p, c);
    }
  }

  /** Calls are conserved: in every run and at each peer, a call that was let in there and has
      neither finished nor been cancelled since is exactly one of running and waiting, in one
      place of the queue, and there are no other calls. */
  lemma CallsAreConserved(max: nat, events: seq<Event>, p: PeerId, c: nat)
    requires ValidRun(map[], max, events)
    ensures var s := At(Run(map[], max, events), p, max);
            && (c in s.holders || c in s.waiters <==>
                  exists i: nat :: UnderWaySince(max, events, p, c, i))
            && !(c in s.holders && c in s.waiters)
            && (forall i, j :: 0 <= i < j < |s.waiters| ==> s.waiters[i] != s.waiters[j])
  {
    PresentExactlyIfUnderWay(max, events, p, c);
    RunKeepsInv(map[], max, events);
    AtIsInv(Run(map[], max, events), max, p);
  }

  predicate Concerns(e: Event, p: PeerId) {
    if e.Arrive? then e.from == Some(p) else e.peer == p
  }

  /** The events of one peer, oldest first. */
  function Of(p: PeerId, events: seq<Event>): seq<Event> {
    if events == [] then []
    else (if Concerns(events[0], p) then [events[0]] else []) + Of(p, events[1..])
  }

  /** One peer's traffic never affects another's: each peer is served as if the other
      peers did not exist. */
  lemma {:induction false} PeersAreIsolated(l: Limiter, k: Limiter, max: nat, events: seq<Event>, p: PeerId)
    requires At(l, p, max) == At(k, p, max) && ValidRun(l, max, events)
    ensures ValidRun(k, max, Of(p, events))
    ensures At(Run(l, max, events), p, max) == At(Run(k, max, Of(p, events)), p, max)
    decreases events
  {
    if events == [] {
    } else {
      var e := events[0];
      if Concerns(e, p) {
        assert Of(p, events)[1..] == Of(p, events[1..]);
        PeersAreIsolated(Step(l, max, e), Step(k, max, e), max, events[1..], p);
      } else {
        assert Of(p, events) == Of(p, events[1..]);
        PeersAreIsolated(Step(l, max, e), k, max, events[1..], p);
      }
    }
  }

  /** A waiting call is never overtaken: while it waits, the calls ahead of it in the queue
      only become fewer, whatever happens. */
  lemma QueueIsFair(l: Limiter, max: nat, e: Event, p: PeerId, i: nat)
    requires Inv(l, max) && Enabled(l, max, e) && i < |At(l, p, max).waiters|
    ensures var call := At(l, p, max).waiters[i];
            var after := At(Step(l, max, e), p, max);
            || call in after.holders
            || e == Cancel(call, p)
            || exists j: nat :: j <= i && j < |after.waiters| && after.waiters[j] == call
  {
    var s := At(l, p, max);
    var after := At(Step(l, max, e), p, max);
    var call := s.waiters[i];
    if e.Cancel? && e.peer == p && e.call != call && e.call !in s.holders {
      var j := PlaceWithout(s.waiters, e.call, i);
    } else if e.Cancel? && e == Cancel(call, p) {
    } else if after.waiters == s.waiters || (i < |after.waiters| && after.waiters[i] == call) {
      assert after.waiters[i] == call;
    } else if i > 0 {
      assert after.waiters[i - 1] == call;
    }
  }

  /** Until it is cancelled or has run to its end, a call that waits in place i either holds
      a permit or waits in a place no later than i. */
  lemma {:induction false} PlaceNeverGrows(l: Limiter, max: nat, events: seq<Event>, p: PeerId, i: nat)
    requires Inv(l, max) && ValidRun(l, max, events) && i < |At(l, p, max).waiters|
    requires Cancel(At(l, p, max).waiters[i], p) !in events && Finish(At(l, p, max).waiters[i], p) !in events
    ensures HoldsOrWaits(At(Run(l, max, events), p, max), At(l, p, max).waiters[i], i)
    decreases events
  {
    var call := At(l, p, max).waiters[i];
    if events == [] {
    } else {
      var next := Step(l, max, events[0]);
      StepKeepsInv(l, max, events[0]);
      QueueIsFair(l, max, events[0], p, i);
      if call in At(next, p, max).holders {
        HolderKeepsItsPermit(next, max, events[1..], p, call);
      } else {
        var j: nat :| j <= i && j < |At(next, p, max).waiters| && At(next, p, max).waiters[j] == call;
        PlaceNeverGrows(next, max, events[1..], p, j);
      }
    }
  }

  ghost predicate HoldsOrWaits(s: Semaphore, call: nat, i: nat) {
    call in s.holders || exists j: nat :: j <= i && j < |s.waiters| && s.waiters[j] == call
  }

  lemma {:induction false} HolderKeepsItsPermit(l: Limiter, max: nat, events: seq<Event>, p: PeerId, call: nat)
    requires ValidRun(l, max, events) && call in At(l, p, max).holders
    requires Cancel(call, p) !in events && Finish(call, p) !in events
    ensures call in At(Run(l, max, events), p, max).holders
    decreases events
  {
    if events == [] {
    } else {
      assert events[0] != Cancel(call, p) && events[0] != Finish(call, p);
      assert call in At(Step(l, max, events[0]), p, max).holders;
      HolderKeepsItsPermit(Step(l, max, events[0]), max, events[1..], p, call);
    }
  }

  lemma {:induction false} PlaceWithout(calls: seq<nat>, call: nat, i: nat) returns (j: nat)
    requires i < |calls| && calls[i] != call
    ensures j <= i && j < |Without(calls, call)| && Without(calls, call)[j] == calls[i]
    ensures forall c :: c in Without(calls, call)[..j] ==> c in calls[..i]
  {
    if i == 0 {
      j := 0;
    } else {
      var k := PlaceWithout(calls[1..], call, i - 1);
      var rest := Without(calls[1..], call);
      assert calls[..i] == [calls[0]] + calls[1..][..i - 1];
      if calls[0] == call {
        j := k;
      } else {
        j := k + 1;
        assert Without(calls, call)[..j] == [calls[0]] + rest[..k];
      }
    }
  }

  /** Call `a` is served before `b`: it holds a permit, or it waits and `b` neither holds
      one nor waits further to the front. */
  ghost predicate Ahead(s: Semaphore, a: nat, b: nat) {
    a in s.holders || (b !in s.holders && exists i: nat :: i < |s.waiters| && s.waiters[i] == a && b !in s.waiters[..i])
  }

  lemma ReleaseKeepsOrder(s: Semaphore, call: nat, a: nat, b: nat)
    requires Ahead(s, a, b) && a != b && call != a
    ensures Ahead(Release(s, call), a, b)
  {
    if a !in s.holders {
      var i: nat :| i < |s.waiters| && s.waiters[i] == a && b !in s.waiters[..i];
      if i > 0 {
        var rest := s.waiters[1..];
        assert s.waiters[0] in s.waiters[..i];
        assert rest[i - 1] == a && rest[..i - 1] == s.waiters[1..i];
        assert forall c :: c in s.waiters[1..i] ==> c in s.waiters[..i];
      }
    }
  }

  lemma GiveUpKeepsOrder(s: Semaphore, call: nat, a: nat, b: nat)
    requires Ahead(s, a, b) && a != b && call != a
    ensures Ahead(GiveUp(s, call), a, b)
  {
    if call in s.holders {
      ReleaseKeepsOrder(s, call, a, b);
    } else if a !in s.holders {
      var i: nat :| i < |s.waiters| && s.waiters[i] == a && b !in s.waiters[..i];
      var j := PlaceWithout(s.waiters, call, i);
      assert b !in Without(s.waiters, call)[..j];
    }
  }

  lemma AcquireKeepsOrder(s: Semaphore, max: nat, call: nat, a: nat, b: nat)
    requires SemaphoreInv(s, max) && Ahead(s, a, b)
    ensures Ahead(Acquire(s, call), a, b)
  {
    if a !in s.holders {
      var i: nat :| i < |s.waiters| && s.waiters[i] == a && b !in s.waiters[..i];
      assert (s.waiters + [call])[i] == a && (s.waiters + [call])[..i] == s.waiters[..i];
    }
  }

  lemma StepKeepsOrder(l: Limiter, max: nat, e: Event, p: PeerId, a: nat, b: nat)
    requires Inv(l, max) && Ahead(At(l, p, max), a, b) && a != b
    requires e != Cancel(a, p) && e != Finish(a, p)
    ensures Ahead(At(Step(l, max, e), p, max), a, b)
  {
    var s := At(l, p, max);
    if Concerns(e, p) {
      match e
      case Arrive(call, _, _) =>
        AtIsInv(l, max, p);
        AcquireKeepsOrder(s, max, call, a, b);
      case Finish(call, _) => ReleaseKeepsOrder(s, call, a, b);
      case Cancel(call, _) => GiveUpKeepsOrder(s, call, a, b);
    }
  }

  /** Nobody overtakes: in any run a call stays ahead of every call that it was ahead of,
      until it is cancelled or has run to its end. */
  lemma {:induction false} NobodyOvertakes(l: Limiter, max: nat, events: seq<Event>, p: PeerId, a: nat, b: nat)
    requires Inv(l, max) && ValidRun(l, max, events) && Ahead(At(l, p, max), a, b) && a != b
    requires Cancel(a, p) !in events && Finish(a, p) !in events
    ensures Ahead(At(Run(l, max, events), p, max), a, b)
    decreases events
  {
    if events == [] {
    } else {
      StepKeepsInv(l, max, events[0]);
      StepKeepsOrder(l, max, events[0], p, a, b);
      NobodyOvertakes(Step(l, max, events[0]), max, events[1..], p, a, b);
    }
  }

  /** First come, first served: a call that waits at some point of a run gets its permit
      before any call that arrives at that peer later, unless it is cancelled. */
  lemma FirstComeFirstServed(max: nat, before: seq<Event>, after: seq<Event>, p: PeerId, a: nat, b: nat)
    requires ValidRun(map[], max, before) && ValidRun(Run(map[], max, before), max, after)
    requires a in At(Run(map[], max, before), p, max).waiters
    requires b !in At(Run(map[], max, before), p, max).waiters && b !in At(Run(map[], max, before), p, max).holders
    requires Cancel(a, p) !in after && Finish(a, p) !in after
    ensures var s := At(Run(Run(map[], max, before), max, after), p, max);
            && (a in s.holders || a in s.waiters)
            && (b in s.holders ==> a in s.holders)
  {
    var l := Run(map[], max, before);
    RunKeepsInv(map[], max, before);
    var waiters := At(l, p, max).waiters;
    var i :| 0 <= i < |waiters| && waiters[i] == a;
    assert b !in waiters[..i];
    NobodyOvertakes(l, max, after, p, a, b);
  }

  // --------------------------------------------------------------- in place

  /** The middleware: a shared map of semaphores, filled on demand. */
  class Middleware {
    const max: nat
    const mode: WaitMode
    var inflight: map<PeerId, Semaphore>

    constructor (max: nat, mode: WaitMode)
      ensures this.max == max && this.mode == mode && inflight == map[]
    {
      this.max, this.mode, inflight := max, mode, map[];
    }

    /** A call up to the point where it runs, waits or is turned away. */
    method Call(call: nat, peer: Option<PeerId>) returns (verdict: Verdict)
      modifies this
      ensures verdict == Decide(old(inflight), max, Arrive(call, peer, mode))
      ensures inflight == Step(old(inflight), max, Arrive(call, peer, mode))
    {
      if peer.None? {
        return Rejected(InternalServerError);
      }
      var p := peer.value;
      if p !in inflight {
        inflight := inflight[p := Semaphore(max, {}, [])];
      }
      match mode {
        case Block =>
          verdict := if inflight[p].permits > 0 then Started else Waiting;
          inflight := inflight[p := Acquire(inflight[p], call)];
        case ReturnError =>
          if inflight[p].permits == 0 {
            verdict := Rejected(TooManyRequests);
          } else {
            verdict := Started;
            inflight := inflight[p := Acquire(inflight[p], call)];
          }
      }
    }

    /** The end of a running call gives its permit back. */
    method Done(call: nat, p: PeerId)
      requires p in inflight && call in inflight[p].holders
      modifies this
      ensures inflight == Step(old(inflight), max, Finish(call, p))
    {
      inflight := inflight[p := Release(inflight[p], call)];
    }

    /** Dropping the call's future gives back its permit, or its place in the queue. */
    method Dropped(call: nat, p: PeerId)
      requires p in inflight && (call in inflight[p].holders || call in inflight[p].waiters)
      modifies this
      ensures inflight == Step(old(inflight), max, Cancel(call, p))
      ensures p in inflight && inflight == old(inflight)[p := inflight[p]]
      ensures old(Inv(inflight, max)) ==>
                forall c :: c in inflight[p].holders || c in inflight[p].waiters <==>
                              (c in old(inflight)[p].holders || c in old(inflight)[p].waiters) && c != call
    {
      if Inv(inflight, max) {
        forall c ensures var u := GiveUp(inflight[p], call);
                         c in u.holders || c in u.waiters <==>
                           (c in inflight[p].holders || c in inflight[p].waiters) && c != call
        {
          GiveUpAccounts(inflight[p], max, call, c);
        }
      }
      var s := inflight[p];
      if call in s.holders {
        s := Release(s, call);
      } else {
        s := s.(waiters := Without(s.waiters, call));
      }
      inflight := inflight[p := s];
    }
  }
}
