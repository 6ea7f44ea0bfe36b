/** The tasks that establish inbound connections, over whole runs of a node: each decides
    once whether its connection may go on to the handshake, and ends with that connection
    or with an error. */
module IncomingTasks {
  import opened Types
  import opened Admission

  type State = map<nat, Stage>

  datatype Event =
    | Spawn(task: nat)
    | Judge(task: nat, conn: Connection, known: Option<PeerInfo>, limit: Option<nat>, active: nat)
    | End(task: nat, result: Option<Connection>)

  function StageOf(verdict: Verdict, conn: Connection, limit: Option<nat>): Stage {
    match verdict
    case Bypass => Bypassing(conn)
    case Passed => if limit.Some? then Admitted(conn) else Bypassing(conn)
    case RejectedNever => TurnedAway
    case RejectedLimit => TurnedAway
  }

  /** A task ends with a connection only if it let that one through. */
  ghost predicate Enabled(s: State, e: Event) {
    match e
    case Spawn(t) => t !in s
    case Judge(t, c, known, _, _) =>
      t in s && s[t].Undecided? && (known.Some? ==> known.value.peer == c.peer)
    case End(t, None) => t in s
    case End(t, Some(c)) => t in s && (s[t] == Admitted(c) || s[t] == Bypassing(c))
  }

  function Step(s: State, e: Event): State {
    match e
    case Spawn(t) => s[t := Undecided]
    case Judge(t, c, known, limit, active) => s[t := StageOf(Decide(known, limit, active), c, limit)]
    case End(t, _) => s - {t}
  }

  ghost predicate ValidRun(s: State, events: seq<Event>)
    decreases events
  {
    events != [] ==> Enabled(s, events[0]) && ValidRun(Step(s, events[0]), events[1..])
  }

  function Run(s: State, events: seq<Event>): State
    decreases events
  {
    if events == [] then s else Run(Step(s, events[0]), events[1..])
  }

  lemma {:induction false} RunComposes(s: State, first: seq<Event>, second: seq<Event>)
    ensures Run(s, first + second) == Run(Run(s, first), second)
    ensures ValidRun(s, first + second) <==> ValidRun(s, first) && ValidRun(Run(s, first), second)
    decreases first
  {
    if first == [] {
      assert first + second == second;
    } else {
      assert (first + second)[0] == first[0] && (first + second)[1..] == first[1..] + second;
      RunComposes(Step(s, first[0]), first[1..], second);
    }
  }

  /** Who may enter: a peer that is known and not banned, whatever the limit, and a peer that
      is not known while no limit is set or it is not reached. */
  ghost predicate MayEnter(e: Event)
    requires e.Judge?
  {
    if e.known.Some? then e.known.value.affinity != Never
    else e.limit.Some? ==> e.active < e.limit.value
  }

  /** `j` is where the task that is now under way decided. */
  ghost predicate DecidedAt(events: seq<Event>, t: nat, j: nat) {
    && j < |events| && events[j].Judge? && events[j].task == t
    && forall k :: j < k < |events| ==> events[k].task != t
  }

  /** The stage of a task says whether and how it decided. */
  ghost predicate Explains(events: seq<Event>, t: nat, stage: Stage) {
    match stage
    case Undecided => true
    case TurnedAway => exists j: nat :: DecidedAt(events, t, j) && !MayEnter(events[j])
    case Admitted(c) =>
      exists j: nat :: DecidedAt(events, t, j) && MayEnter(events[j]) && events[j].conn == c
                       && events[j].known.None? && events[j].limit.Some?
    case Bypassing(c) =>
      exists j: nat :: DecidedAt(events, t, j) && MayEnter(events[j]) && events[j].conn == c
                       && (events[j].known.Some? || events[j].limit.None?)
  }

  lemma StepExplains(events: seq<Event>, t: nat, stage: Stage, e: Event)
    requires Explains(events, t, stage) && e.task != t
    ensures Explains(events + [e], t, stage)
  {
    var more := events + [e];
    forall j: nat | DecidedAt(events, t, j) ensures DecidedAt(more, t, j) && more[j] == events[j] {}
  }

  lemma JudgeExplains(events: seq<Event>, e: Event)
    requires e.Judge?
    ensures Explains(events + [e], e.task, StageOf(Decide(e.known, e.limit, e.active), e.conn, e.limit))
  {
    DecisionIsExact(e.known, e.limit, e.active);
    assert (events + [e])[|events|] == e;
    assert DecidedAt(events + [e], e.task, |events|);
  }

  lemma {:induction false} StagesAreExplained(events: seq<Event>, t: nat)
    requires ValidRun(map[], events) && t in Run(map[], events)
    ensures Explains(events, t, Run(map[], events)[t])
  {
    if events == [] {
    } else {
      var init, e := events[..|events| - 1], events[|events| - 1];
      assert events == init + [e];
      assert [e][1..] == [];
      RunComposes(map[], init, [e]);
      assert Run(map[], events) == Step(Run(map[], init), e);
      if e.task != t {
        StagesAreExplained(init, t);
        StepExplains(init, t, Run(map[], init)[t], e);
      } else if e.Judge? {
        JudgeExplains(init, e);
      }
    }
  }

  /** Over whole runs: an incoming task that ends with a connection decided about that very
      connection, once, and let it through because its peer was known and not banned, or
      was not known and the limit, if any, was not reached then. */
  lemma OnlyTheEntitledEnter(events: seq<Event>, i: nat, c: Connection) returns (j: nat)
    requires ValidRun(map[], events) && i < |events| && events[i].End? && events[i].result == Some(c)
    ensures j < i && events[j].Judge? && events[j].task == events[i].task && events[j].conn == c
    ensures forall k :: j < k < i ==> events[k].task != events[i].task
    ensures if events[j].known.Some?
            then events[j].known.value.peer == c.peer && events[j].known.value.affinity != Never
            else events[j].limit.Some? ==> events[j].active < events[j].limit.value
  {
    var before := events[..i];
    PrefixIsValid(events, i);
    StagesAreExplained(before, events[i].task);
    j :| DecidedAt(before, events[i].task, j) && MayEnter(before[j]) && before[j].conn == c;
    PrefixIsValid(events, j);
  }

  lemma PrefixIsValid(events: seq<Event>, i: nat)
    requires ValidRun(map[], events) && i < |events|
    ensures ValidRun(map[], events[..i]) && Enabled(Run(map[], events[..i]), events[i])
  {
    assert events == events[..i] + events[i..];
    RunComposes(map[], events[..i], events[i..]);
  }

  /** And the other way around: a task that decided about a banned peer, or about one that is
      not known while the limit was reached, does not end with a connection. */
  lemma OthersAreTurnedAway(events: seq<Event>, j: nat, i: nat)
    requires ValidRun(map[], events) && j < i < |events|
    requires events[j].Judge? && events[i].End? && events[i].task == events[j].task
    requires forall k :: j < k < i ==> events[k].task != events[j].task
    requires if events[j].known.Some? then events[j].known.value.affinity == Never
             else events[j].limit.Some? && events[j].limit.value <= events[j].active
    ensures events[i].result == None
  {
    if events[i].result.Some? {
      var _ := OnlyTheEntitledEnter(events, i, events[i].result.value);
    }
  }
}
