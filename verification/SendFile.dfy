/** The end of SendFile, which holds the work lock: it waits until both loops of the connection have
    left. The writing loop looks between any two messages whether the connection is closed. The reading
    loop hands messages to the handler over a channel with room for ten, and while it waits for room it
    does not look. Calls into the network are taken to return. */
module SendFile {
  import opened Wrappers

  const ROOM: nat := 10

  /** Of the messages only notifications are told apart: the handler has to hand them on. */
  datatype Kind = Notification | Other

  /** Between two messages, or with one to put into the channel, or gone. */
  datatype Reader = Looping | Holding(m: Kind) | Gone

  /** At the head of its loop, where it looks whether the connection is closed; waiting for a message;
      handing on a notification; or gone. */
  datatype Taker = AtHead | Getting | Notifying | Left

  /** `stream` is what the peer is still to send, `untold` that the one-slot channel for notifications
      is full, `returned` that sendFile has returned, which is when the waiting begins. */
  datatype State = State(
    stream: seq<Kind>, reader: Reader, recv: seq<Kind>, handler: Taker, untold: bool, returned: bool, closed: bool)

  datatype Step =
    | Read | Put | Leave                   // the reading loop; it can leave for an error at any message
    | Enter | Take(stops: bool) | TimeOut  // the handler; it stops at a message for many reasons
    | HandOn | Quit | Drained
    | TakeNotify | Return                  // sendFile, while it runs
    | Close

  function Init(stream: seq<Kind>): State {
    State(stream, Looping, [], AtHead, false, false, false)
  }

  predicate Enabled(s: State, a: Step) {
    match a
    case Read => s.reader == Looping && !s.closed && s.stream != []
    case Put => s.reader.Holding? && |s.recv| < ROOM
    case Leave => s.reader == Looping
    case Enter => s.handler == AtHead && !s.closed
    case Take(_) => s.handler == Getting && s.recv != []
    case TimeOut => s.handler == Getting
    case HandOn => s.handler == Notifying && !s.untold
    case Quit => s.handler == AtHead && s.closed
    case Drained => s.handler == Getting && s.recv == [] && s.reader == Gone
    case TakeNotify => s.untold && !s.returned
    case Return => !s.returned
    case Close => !s.closed
  }

  function Apply(s: State, a: Step): State
    requires Enabled(s, a)
  {
    match a
    case Read => s.(reader := Holding(s.stream[0]), stream := s.stream[1..])
    case Put => s.(reader := Looping, recv := s.recv + [s.reader.m])
    case Leave => s.(reader := Gone)
    case Enter => s.(handler := Getting)
    case Take(stops) =>
      s.(recv := s.recv[1..],
         handler := if s.recv[0] == Notification && !stops then Notifying else if stops then Left else AtHead)
    case TimeOut => s.(handler := AtHead)
    case HandOn => s.(handler := AtHead, untold := true)
    case Quit => s.(handler := Left)
    case Drained => s.(handler := Left)
    case TakeNotify => s.(untold := false)
    case Return => s.(returned := true)
    case Close => s.(closed := true)
  }

  function Exec(s: State, steps: seq<Step>): Option<State>
    decreases |steps|
  {
    if steps == [] then Some(s)
    else if Enabled(s, steps[0]) then Exec(Apply(s, steps[0]), steps[1..])
    else None
  }

  // ----- when SendFile does not return

  /** Messages read and not taken by the handler. */
  function Untaken(s: State): nat {
    |s.recv| + if s.reader.Holding? then 1 else 0
  }

  /** The handler has taken its last message: it has left, having stopped at that message or seen the
      connection closed, or it is stuck with a notification while the one before was never taken. */
  predicate Over(s: State) {
    s.handler == Left || (s.handler == Notifying && s.untold && s.returned)
  }

  /** The reading loop waits for room in the channel, and there will be none. */
  predicate Hung(s: State) {
    s.reader.Holding? && |s.recv| == ROOM && Over(s)
  }

  lemma {:induction false} OverForEver(s: State, steps: seq<Step>, t: State)
    requires Over(s) && Exec(s, steps) == Some(t)
    ensures Over(t) && !Enabled(t, Take(true)) && !Enabled(t, Take(false))
    decreases |steps|
  {
    if steps != [] {
      OverForEver(Apply(s, steps[0]), steps[1..], t);
    }
  }

  lemma {:induction false} HungForEver(s: State, steps: seq<Step>, t: State)
    requires Hung(s) && Exec(s, steps) == Some(t)
    ensures Hung(t)
    decreases |steps|
  {
    if steps != [] {
      HungForEver(Apply(s, steps[0]), steps[1..], t);
    }
  }

  /** Nothing more can happen. */
  ghost predicate Settled(s: State) {
    forall a :: !Enabled(s, a)
  }

  lemma {:induction false} RoomKept(s: State, steps: seq<Step>, t: State)
    requires |s.recv| <= ROOM && Exec(s, steps) == Some(t)
    ensures |t.recv| <= ROOM && Untaken(t) + |t.stream| <= Untaken(s) + |s.stream|
    decreases |steps|
  {
    if steps != [] {
      RoomKept(Apply(s, steps[0]), steps[1..], t);
    }
  }

  /** When all is settled, the reading loop has left, and SendFile returns, exactly if at most ten
      messages were read after the last one the handler took; otherwise it is eleven, and it hangs. */
  lemma SettledExactly(stream: seq<Kind>, steps: seq<Step>, s: State)
    requires Exec(Init(stream), steps) == Some(s) && Settled(s)
    ensures Over(s) && s.returned && s.closed
    ensures s.reader == Gone <==> Untaken(s) <= ROOM
    ensures Hung(s) <==> Untaken(s) == ROOM + 1
  {
    RoomKept(Init(stream), steps, s);
    assert !Enabled(s, Close) && !Enabled(s, Return) && !Enabled(s, Put) && !Enabled(s, Leave);
    assert !Enabled(s, TimeOut) && !Enabled(s, Quit) && !Enabled(s, HandOn);
  }

  function Ahead(s: State): nat {
    (if s.closed then 0 else 1) + (if s.returned then 0 else 1)
    + (match s.reader case Gone => 0 case Looping => 1 case Holding(_) => 2)
    + (match s.handler case Left => 0 case AtHead => 1 case Getting => 2 case Notifying => 2)
  }

  /** Every run can go on until all is settled. */
  lemma {:induction false} Settles(s: State) returns (more: seq<Step>, t: State)
    ensures Exec(s, more) == Some(t) && Settled(t)
    decreases Ahead(s)
  {
    var a := if !s.closed then Close else if !s.returned then Return
             else if s.reader == Looping then Leave
             else if s.handler == Getting then TimeOut
             else if s.handler == AtHead then Quit
             else if s.handler == Notifying && !s.untold then HandOn else Put;
    if Enabled(s, a) {
      more, t := Settles(Apply(s, a));
      assert ([a] + more)[1..] == more;
      more := [a] + more;
    } else {
      more, t := [], s;
    }
  }

  lemma Cons(s: State, a: Step, steps: seq<Step>, t: State)
    requires Enabled(s, a) && Exec(Apply(s, a), steps) == Some(t)
    ensures Exec(s, [a] + steps) == Some(t)
  {
    assert ([a] + steps)[1..] == steps;
  }

  /** Once the handler takes no more, the loop can read on until it hangs. */
  lemma {:induction false} ReadsOn(s: State) returns (steps: seq<Step>, t: State)
    requires Over(s) && !s.closed && s.reader != Gone && |s.recv| <= ROOM && Untaken(s) + |s.stream| > ROOM
    ensures Exec(s, steps) == Some(t) && Hung(t)
    decreases 2 * |s.stream| + if s.reader.Holding? then 1 else 0
  {
    if Hung(s) {
      steps, t := [], s;
    } else {
      var a := if s.reader.Holding? then Put else Read;
      steps, t := ReadsOn(Apply(s, a));
      Cons(s, a, steps, t);
      steps := [a] + steps;
    }
  }

  /** Some way of going on from here leaves the reading loop hung. */
  ghost predicate CanHang(s: State) {
    exists steps :: Exec(s, steps).Some? && Hung(Exec(s, steps).value)
  }

  /** After the handler's last message SendFile can hang exactly if the loop is still there and the peer
      sends more than ten more, counting those read already; once the connection is closed, exactly if
      more than ten have been read. */
  lemma HangsExactly(s: State)
    requires Over(s) && |s.recv| <= ROOM
    ensures CanHang(s) <==> s.reader != Gone && Untaken(s) + (if s.closed then 0 else |s.stream|) > ROOM
  {
    if s.reader != Gone && s.closed && Untaken(s) > ROOM {
      assert Exec(s, []) == Some(s) && Hung(s);
    }
    if s.reader != Gone && !s.closed && Untaken(s) + |s.stream| > ROOM {
      var steps, t := ReadsOn(s);
      assert Exec(s, steps) == Some(t) && Hung(t);
    }
    if CanHang(s) {
      var steps :| Exec(s, steps).Some? && Hung(Exec(s, steps).value);
      var t := Exec(s, steps).value;
      RoomKept(s, steps, t);
      ReadOnlyOpen(s, steps, t);
      assert Untaken(t) == ROOM + 1;
    }
  }

  lemma {:induction false} ReadOnlyOpen(s: State, steps: seq<Step>, t: State)
    requires |s.recv| <= ROOM && Exec(s, steps) == Some(t)
    ensures s.reader == Gone ==> t.reader == Gone
    ensures s.closed ==> Untaken(t) <= Untaken(s)
    decreases |steps|
  {
    if steps != [] {
      ReadOnlyOpen(Apply(s, steps[0]), steps[1..], t);
    }
  }

  /** SendFile can hang exactly if the peer sends more than ten messages at all; if it sends at most
      ten, no schedule keeps it from returning. */
  lemma CanHangExactly(stream: seq<Kind>)
    ensures CanHang(Init(stream)) <==> |stream| > ROOM
  {
    var s := Init(stream);
    if |stream| > ROOM {
      SlowHandler(s);
    }
    if CanHang(s) {
      var steps :| Exec(s, steps).Some? && Hung(Exec(s, steps).value);
      RoomKept(s, steps, Exec(s, steps).value);
    }
  }

  /** The handler does not get to its first message in time. */
  lemma SlowHandler(s: State)
    requires s == Init(s.stream) && |s.stream| > ROOM
    ensures CanHang(s)
  {
    var steps, t := FillsUp(s);
    var c := t.(closed := true);
    Cons(c, Quit, [], c.(handler := Left));
    Cons(t, Close, [Quit] + [], c.(handler := Left));
    Joined(s, steps, t, [Close] + ([Quit] + []));
    assert Hung(Exec(s, steps + ([Close] + ([Quit] + []))).value);
  }

  lemma {:induction false} FillsUp(s: State) returns (steps: seq<Step>, t: State)
    requires !s.closed && s.handler == AtHead && s.reader != Gone && |s.recv| <= ROOM
    requires Untaken(s) + |s.stream| > ROOM
    ensures Exec(s, steps) == Some(t) && t.reader.Holding? && |t.recv| == ROOM && t.handler == AtHead && !t.closed
    decreases 2 * |s.stream| + if s.reader.Holding? then 1 else 0
  {
    if s.reader.Holding? && |s.recv| == ROOM {
      steps, t := [], s;
    } else {
      var a := if s.reader.Holding? then Put else Read;
      steps, t := FillsUp(Apply(s, a));
      Cons(s, a, steps, t);
      steps := [a] + steps;
    }
  }

  lemma {:induction false} Joined(s: State, a: seq<Step>, t: State, b: seq<Step>)
    requires Exec(s, a) == Some(t)
    ensures Exec(s, a + b) == Exec(t, b)
    decreases |a|
  {
    if a == [] {
      assert a + b == b;
    } else {
      assert (a + b)[0] == a[0] && (a + b)[1..] == a[1..] + b;
      Joined(Apply(s, a[0]), a[1..], t, b);
    }
  }

  /** A message at which the handler stops, followed by eleven more: SendFile can hang although
      nothing panics and the connection is closed in the end. */
  lemma StopThenEleven(stream: seq<Kind>)
    requires |stream| > ROOM + 1
    ensures exists steps ::
              && Exec(Init(stream), steps).Some? && Hung(Exec(Init(stream), steps).value)
              && |steps| >= 4 && steps[..4] == [Enter, Read, Put, Take(true)]
  {
    var s1 := Init(stream).(handler := Getting);
    var s2 := s1.(reader := Holding(stream[0]), stream := stream[1..]);
    var s3 := s2.(reader := Looping, recv := [stream[0]]);
    var s4 := s3.(recv := [], handler := Left);
    assert [] + [stream[0]] == [stream[0]] && [stream[0]][1..] == [];
    var more, t := ReadsOn(s4);
    Cons(s3, Take(true), more, t);
    Cons(s2, Put, [Take(true)] + more, t);
    Cons(s1, Read, [Put] + ([Take(true)] + more), t);
    Cons(Init(stream), Enter, [Read] + ([Put] + ([Take(true)] + more)), t);
    var steps := [Enter] + ([Read] + ([Put] + ([Take(true)] + more)));
    assert |steps| >= 4 && steps[..4] == [Enter, Read, Put, Take(true)];
  }

  /** While sendFile runs, a handler that waits to hand on a notification is let go by the taking of the
      one before. */
  lemma NotYetStuck(s: State)
    requires s.handler == Notifying && !s.returned
    ensures s.untold ==> Enabled(s, TakeNotify) && Enabled(Apply(s, TakeNotify), HandOn)
    ensures !s.untold ==> Enabled(s, HandOn) && Apply(s, HandOn).handler == AtHead && Apply(s, HandOn).untold
  {
  }

  /** Two notifications once sendFile has gone, followed by eleven more messages: the handler never gets
      rid of the second, and SendFile can hang. */
  lemma TwoUntoldThenEleven(stream: seq<Kind>)
    requires |stream| > ROOM + 2 && stream[0] == stream[1] == Notification
    ensures exists steps ::
              && Exec(Init(stream), steps).Some? && Hung(Exec(Init(stream), steps).value)
              && Exec(Init(stream), steps).value.handler == Notifying
  {
    var s0 := Init(stream).(returned := true);
    var s1 := NotificationTaken(s0);
    var s2 := Apply(s1, HandOn);
    var s3 := NotificationTaken(s2);
    var more, t := ReadsOn(s3);
    StaysNotifying(s3, more, t);
    Joined(s2, TAKEN, s3, more);
    Cons(s1, HandOn, TAKEN + more, t);
    Joined(s0, TAKEN, s1, [HandOn] + (TAKEN + more));
    Cons(Init(stream), Return, TAKEN + ([HandOn] + (TAKEN + more)), t);
  }

  const TAKEN: seq<Step> := [Enter] + ([Read] + ([Put] + ([Take(false)] + [])))

  /** The handler takes a notification that has just come. */
  lemma NotificationTaken(s: State) returns (t: State)
    requires s.handler == AtHead && s.reader == Looping && s.recv == [] && !s.closed
    requires s.stream != [] && s.stream[0] == Notification
    ensures Exec(s, TAKEN) == Some(t) && t == s.(handler := Notifying, stream := s.stream[1..])
  {
    var s1 := s.(handler := Getting);
    var s2 := s1.(reader := Holding(s.stream[0]), stream := s.stream[1..]);
    var s3 := s2.(reader := Looping, recv := [s.stream[0]]);
    t := s3.(recv := [], handler := Notifying);
    assert [] + [s.stream[0]] == [s.stream[0]] && [s.stream[0]][1..] == [];
    Cons(s3, Take(false), [], t);
    Cons(s2, Put, [Take(false)] + [], t);
    Cons(s1, Read, [Put] + ([Take(false)] + []), t);
    Cons(s, Enter, [Read] + ([Put] + ([Take(false)] + [])), t);
  }

  lemma {:induction false} StaysNotifying(s: State, steps: seq<Step>, t: State)
    requires s.handler == Notifying && s.untold && s.returned && Exec(s, steps) == Some(t)
    ensures t.handler == Notifying
    decreases |steps|
  {
    if steps != [] {
      StaysNotifying(Apply(s, steps[0]), steps[1..], t);
    }
  }
}
