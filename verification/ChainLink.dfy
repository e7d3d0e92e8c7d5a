/** The connection under concurrent calls. Submissions exclude each other by the client's lock, but
    queries do not take it, and all of them check, drop and renew the same connection. */
module ChainLink {
  import opened Wrappers
  import C = ChainClient

  /** A call that has not begun, has seen the check fail, has dropped the connection and is making a
      new one, or takes it that there is a connection. */
  datatype Caller = Idle | Doubting | Renewing | Trusting

  /** `panics` counts the calls that ended by using a missing connection. */
  datatype State = State(api: bool, callers: seq<Caller>, panics: nat)

  datatype Step = Check(c: nat, healthy: bool) | Drop(c: nat) | Renew(c: nat, ok: bool) | Use(c: nat) | Return(c: nat)

  function Init(n: nat): State {
    State(true, seq(n, _ => Idle), 0)
  }

  predicate At(s: State, c: nat, caller: Caller) {
    c < |s.callers| && s.callers[c] == caller
  }

  predicate Enabled(s: State, a: Step) {
    match a
    case Check(c, _) => At(s, c, Idle)
    case Drop(c) => At(s, c, Doubting)
    case Renew(c, _) => At(s, c, Renewing)
    case Use(c) => At(s, c, Trusting)
    case Return(c) => At(s, c, Trusting)
  }

  function Move(s: State, c: nat, caller: Caller): State
    requires c < |s.callers|
  {
    s.(callers := s.callers[c := caller])
  }

  function Apply(s: State, a: Step): State
    requires Enabled(s, a)
  {
    match a
    case Check(c, healthy) => Move(s, c, if s.api && !healthy then Doubting else Trusting)
    case Drop(c) => Move(s, c, Renewing).(api := false)
    case Renew(c, ok) => if ok then Move(s, c, Trusting).(api := true) else Move(s, c, Idle)
    case Use(c) => if s.api then s else Move(s, c, Idle).(panics := s.panics + 1)
    case Return(c) => Move(s, c, Idle)
  }

  function Exec(s: State, steps: seq<Step>): Option<State>
    decreases |steps|
  {
    if steps == [] then Some(s)
    else if Enabled(s, steps[0]) then Exec(Apply(s, steps[0]), steps[1..])
    else None
  }

  predicate Repairing(s: State, c: nat) {
    At(s, c, Doubting) || At(s, c, Renewing)
  }

  /** What one call does at its start, if no other gets in between. */
  function CheckSteps(s: State, c: nat, l: C.Link): seq<Step> {
    if s.api && !l.healthy then [Check(c, false)] + ([Drop(c)] + ([Renew(c, l.reconnects)] + []))
    else [Check(c, l.healthy)] + []
  }

  /** Then it is the sequential check: the connection is gone exactly after an outage, and the call goes on
      unless it just met one. */
  lemma AloneAsSequential(s: State, c: nat, l: C.Link)
    requires At(s, c, Idle)
    ensures var t := Exec(s, CheckSteps(s, c, l));
            && t.Some? && t.value.api == C.ApiAfter(s.api, [l]) && t.value.panics == s.panics
            && t.value.callers == s.callers[c := if s.api && C.Outage(l) then Idle else Trusting]
  {
    C.ApiLastsExactly(s.api, [l]);
    if s.api && !l.healthy {
      var s1 := Move(s, c, Doubting);
      var s2 := Move(s1, c, Renewing).(api := false);
      var s3 := Apply(s2, Renew(c, l.reconnects));
      Goes(s2, Renew(c, l.reconnects), [], s3);
      Goes(s1, Drop(c), [Renew(c, l.reconnects)] + [], s3);
      Goes(s, Check(c, false), [Drop(c)] + ([Renew(c, l.reconnects)] + []), s3);
      assert s3.callers == s.callers[c := if C.Outage(l) then Idle else Trusting];
    } else {
      Goes(s, Check(c, l.healthy), [], Move(s, c, Trusting));
    }
  }

  lemma Goes(s: State, a: Step, steps: seq<Step>, t: State)
    requires Enabled(s, a) && Exec(Apply(s, a), steps) == Some(t)
    ensures Exec(s, [a] + steps) == Some(t)
  {
    assert ([a] + steps)[1..] == steps;
  }

  /** There is no connection, and no call that would still make one. */
  ghost predicate LostForGood(s: State) {
    !s.api && forall c: nat :: !Repairing(s, c)
  }

  function Uses(steps: seq<Step>): nat {
    if steps == [] then 0 else (if steps[0].Use? then 1 else 0) + Uses(steps[1..])
  }

  /** From then on there is none in any run: every call passes the check, none renews, and each one
      that uses the connection panics. */
  lemma {:induction false} LostStays(s: State, steps: seq<Step>, t: State)
    requires LostForGood(s) && Exec(s, steps) == Some(t)
    ensures LostForGood(t) && t.panics == s.panics + Uses(steps)
    ensures forall i :: 0 <= i < |steps| ==> !steps[i].Drop? && !steps[i].Renew?
    decreases |steps|
  {
    if steps != [] {
      var u := Apply(s, steps[0]);
      assert !Repairing(s, steps[0].c);
      forall c: nat
        ensures !Repairing(u, c)
      {
        assert !Repairing(s, c);
      }
      LostStays(u, steps[1..], t);
    }
  }

  ghost predicate Refused(steps: seq<Step>) {
    exists i :: 0 <= i < |steps| && steps[i].Renew? && !steps[i].ok
  }

  /** A connection is only lost for good if making a new one failed at some time. */
  lemma {:induction false} LossNeedsOutage(s: State, steps: seq<Step>, t: State)
    requires Exec(s, steps) == Some(t) && !Refused(steps)
    requires s.api || exists c: nat :: At(s, c, Renewing)
    ensures t.api || exists c: nat :: At(t, c, Renewing)
    decreases |steps|
  {
    if steps != [] {
      var a := steps[0];
      var u := Apply(s, a);
      assert a == steps[0] && (a.Renew? ==> a.ok);
      if !u.api {
        if a.Drop? {
          assert At(u, a.c, Renewing);
        } else {
          var c: nat :| At(s, c, Renewing);
          assert At(u, c, Renewing);
        }
      }
      assert forall i :: 0 <= i < |steps| - 1 ==> steps[1..][i] == steps[i + 1];
      LossNeedsOutage(u, steps[1..], t);
    }
  }

  /** A call that found the connection alive can still panic, although none is ever lost: another call
      drops the connection between the check and the use. */
  lemma PanicWithoutOutage()
    ensures exists steps ::
              Exec(Init(2), steps).Some? && !Refused(steps) &&
              Exec(Init(2), steps).value.panics == 1 && Exec(Init(2), steps).value.api
  {
    var steps := [Check(0, true), Check(1, false), Drop(1), Use(0), Renew(1, true)];
    var s0 := Init(2);
    var s1 := State(true, [Trusting, Idle], 0);
    var s2 := State(true, [Trusting, Doubting], 0);
    var s3 := State(false, [Trusting, Renewing], 0);
    var s4 := State(false, [Idle, Renewing], 1);
    var s5 := State(true, [Idle, Trusting], 1);
    assert s0.callers == [Idle, Idle];
    assert Apply(s0, steps[0]) == s1 && Apply(s1, steps[1]) == s2 && Apply(s2, steps[2]) == s3;
    assert Apply(s3, steps[3]) == s4 && Apply(s4, steps[4]) == s5;
    assert steps[1..][1..] == steps[2..] && steps[2..][1..] == steps[3..] && steps[3..][1..] == steps[4..];
    assert steps[4..][1..] == [];
    assert Exec(s4, steps[4..]) == Some(s5);
    assert Exec(s3, steps[3..]) == Some(s5);
    assert Exec(s2, steps[2..]) == Some(s5);
    assert Exec(s1, steps[1..]) == Some(s5);
    assert Exec(s0, steps) == Some(s5) && !Refused(steps);
  }
}
