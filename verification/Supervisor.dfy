/** The manager that starts five tasks and restarts each one that ends. A task that ends or panics
    sends a token on its own one-slot channel in a deferred call; the manager waits for any token
    and starts that task anew. */
module Supervisor {
  import opened Wrappers

  const TASKS: nat := 5

  /** How many bodies of a task are running, how many are in their deferred send, and how many
      tokens its channel holds. */
  datatype Task = Task(running: nat, ending: nat, tokens: nat)

  /** `started` tasks have been started at the outset; then the manager selects, and `received` is
      the one whose token it has just taken. */
  datatype State = State(tasks: seq<Task>, started: nat, received: Option<nat>)

  datatype Step = Launch | End(i: nat) | Send(i: nat) | Receive(i: nat) | Restart

  function Init(): State {
    State(seq(TASKS, _ => Task(0, 0, 0)), 0, None)
  }

  predicate Enabled(s: State, a: Step)
    requires |s.tasks| == TASKS
  {
    match a
    case Launch => s.started < TASKS
    case End(i) => i < TASKS && s.tasks[i].running > 0
    case Send(i) => i < TASKS && s.tasks[i].ending > 0 && s.tasks[i].tokens == 0
    case Receive(i) => i < TASKS && s.started == TASKS && s.received == None && s.tasks[i].tokens > 0
    case Restart => s.received.Some? && s.received.value < TASKS
  }

  function Apply(s: State, a: Step): (t: State)
    requires |s.tasks| == TASKS && Enabled(s, a)
    ensures |t.tasks| == TASKS
  {
    match a
    case Launch => Change(s, s.started, 1, 0, 0).(started := s.started + 1)
    case End(i) => Change(s, i, -1, 1, 0)
    case Send(i) => Change(s, i, 0, -1, 1)
    case Receive(i) => Change(s, i, 0, 0, -1).(received := Some(i))
    case Restart => Change(s, s.received.value, 1, 0, 0).(received := None)
  }

  function Change(s: State, i: nat, running: int, ending: int, tokens: int): State
    requires i < |s.tasks|
    requires s.tasks[i].running + running >= 0 && s.tasks[i].ending + ending >= 0 && s.tasks[i].tokens + tokens >= 0
  {
    var t := s.tasks[i];
    s.(tasks := s.tasks[i := Task(t.running + running, t.ending + ending, t.tokens + tokens)])
  }

  function Exec(steps: seq<Step>): (r: Option<State>)
    ensures r.Some? ==> |r.value.tasks| == TASKS
  {
    if steps == [] then Some(Init())
    else
      var before := Exec(steps[..|steps| - 1]);
      var a := steps[|steps| - 1];
      if before.Some? && Enabled(before.value, a) then Some(Apply(before.value, a)) else None
  }

  /** Bodies and restart tokens of a task, wherever they are. */
  function Lives(s: State, i: nat): nat
    requires i < |s.tasks|
  {
    var t := s.tasks[i];
    t.running + t.ending + t.tokens + if s.received == Some(i) then 1 else 0
  }

  ghost predicate Inv(s: State) {
    && |s.tasks| == TASKS && s.started <= TASKS
    && (forall i :: 0 <= i < TASKS ==> Lives(s, i) == if i < s.started then 1 else 0)
    && (s.received.Some? ==> s.started == TASKS && s.received.value < TASKS)
  }

  lemma InvStep(s: State, a: Step)
    requires Inv(s) && Enabled(s, a)
    ensures Inv(Apply(s, a))
  {
    var t := Apply(s, a);
    forall i | 0 <= i < TASKS
      ensures Lives(t, i) == if i < t.started then 1 else 0
    {
      assert Lives(s, i) == if i < s.started then 1 else 0;
    }
  }

  /** Each task, once started, is either running, or ending, or its token waits in the channel or in
      the manager's hand: exactly one of these, once, whatever ends when. */
  lemma {:induction false} ExactlyOneLife(steps: seq<Step>, s: State)
    requires Exec(steps) == Some(s)
    ensures Inv(s)
  {
    if steps != [] {
      var k := |steps| - 1;
      var before := Exec(steps[..k]).value;
      ExactlyOneLife(steps[..k], before);
      InvStep(before, steps[k]);
    }
  }

  /** The deferred send never blocks a task that ends. */
  lemma SendNeverBlocks(steps: seq<Step>, s: State, i: nat)
    requires Exec(steps) == Some(s) && i < TASKS && s.tasks[i].ending > 0
    ensures Enabled(s, Send(i)) && s.tasks[i].ending == 1
  {
    ExactlyOneLife(steps, s);
    assert Lives(s, i) == 1;
  }

  function Starts(steps: seq<Step>, i: nat): nat {
    if steps == [] then 0
    else
      var k := |steps| - 1;
      var before := Exec(steps[..k]);
      var starts := before.Some? &&
        (|| (steps[k] == Launch && before.value.started == i)
         || (steps[k] == Restart && before.value.received == Some(i)));
      Starts(steps[..k], i) + if starts then 1 else 0
  }

  function Ends(steps: seq<Step>, i: nat): nat {
    if steps == [] then 0
    else Ends(steps[..|steps| - 1], i) + if steps[|steps| - 1] == End(i) then 1 else 0
  }

  /** Every end but the last is followed by a restart, and no task is started twice for one end. */
  lemma {:induction false} RestartsMatchEnds(steps: seq<Step>, s: State, i: nat)
    requires Exec(steps) == Some(s) && i < TASKS
    ensures Starts(steps, i) == Ends(steps, i) + s.tasks[i].running
    ensures s.started == TASKS ==> Ends(steps, i) <= Starts(steps, i) <= Ends(steps, i) + 1
    ensures i < s.started ==> (Starts(steps, i) == Ends(steps, i) + 1 <==> s.tasks[i].running == 1)
  {
    ExactlyOneLife(steps, s);
    assert Lives(s, i) <= 1;
    if steps != [] {
      var k := |steps| - 1;
      RestartsMatchEnds(steps[..k], Exec(steps[..k]).value, i);
    }
  }

  /** From any moment on, four steps of the manager and of the ending task itself are enough to have
      a task running again. */
  lemma ComesBack(steps: seq<Step>, s: State, i: nat) returns (more: seq<Step>, t: State)
    requires Exec(steps) == Some(s) && s.started == TASKS && i < TASKS
    ensures |more| <= 4 && Exec(steps + more) == Some(t) && t.tasks[i].running == 1
    ensures forall a :: a in more ==> !a.End? && !a.Launch?
  {
    more, t := [], s;
    assert steps + more == steps;
    if t.tasks[i].ending > 0 {
      SendNeverBlocks(steps, s, i);
      more, t := Then(steps, more, t, Send(i));
    }
    more, t := Restarted(steps, more, t);
    more, t := Taken(steps, more, t, i);
  }

  /** With nobody ending and an idle manager, a task runs or its token waits in the channel. */
  lemma Taken(steps: seq<Step>, more: seq<Step>, s: State, i: nat) returns (more': seq<Step>, t: State)
    requires Exec(steps + more) == Some(s) && s.started == TASKS && i < TASKS
    requires s.received == None && s.tasks[i].ending == 0
    ensures Exec(steps + more') == Some(t) && t.tasks[i].running == 1
    ensures more' == more || more' == more + [Receive(i)] + [Restart]
  {
    more', t := more, s;
    ExactlyOneLife(steps + more, s);
    assert Lives(s, i) == 1;
    if s.tasks[i].tokens > 0 {
      more', t := Then(steps, more, s, Receive(i));
      more', t := Then(steps, more', t, Restart);
    }
  }

  /** The manager finishes what it is at. */
  lemma Restarted(steps: seq<Step>, more: seq<Step>, s: State) returns (more': seq<Step>, t: State)
    requires Exec(steps + more) == Some(s)
    ensures Exec(steps + more') == Some(t) && t.received == None && t.started == s.started
    ensures more' == more || more' == more + [Restart]
    ensures forall i :: 0 <= i < TASKS ==> t.tasks[i].ending == s.tasks[i].ending
  {
    more', t := more, s;
    ExactlyOneLife(steps + more, s);
    if s.received.Some? {
      more', t := Then(steps, more, s, Restart);
    }
  }

  lemma Then(steps: seq<Step>, more: seq<Step>, s: State, a: Step) returns (more': seq<Step>, t: State)
    requires Exec(steps + more) == Some(s) && Enabled(s, a)
    ensures more' == more + [a] && t == Apply(s, a) && Exec(steps + more') == Some(t)
  {
    more', t := more + [a], Apply(s, a);
    assert (steps + more')[..|steps + more'| - 1] == steps + more;
  }
}
