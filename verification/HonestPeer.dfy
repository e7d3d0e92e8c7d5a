/** How much the receiver of a transfer sends back, and that it is too little for SendFile to hang. */
module HonestPeer {
  import opened Wrappers
  import opened Numerals
  import opened Messages
  import opened Handler
  import opened Transfer
  import SF = SendFile

  /** The messages the receiver sends in a step. */
  function Paid(job: Job, s: State, a: Action): nat
    requires Enabled(job, s, a)
  {
    if a.ServerHandles? then |Handle(s.server, s.toServer[0], a.w).1| else 0
  }

  /** And in a run. */
  function Replies(job: Job, disk: map<string, seq<byte>>, run: seq<Action>): nat
    requires Exec(job, disk, run).Some?
    decreases |run|
  {
    if run == [] then 0
    else
      var k := |run| - 1;
      Replies(job, disk, run[..k]) + Paid(job, Exec(job, disk, run[..k]).value, run[k])
  }

  predicate IsQuestion(m: Message) {
    m.MsgType == MsgHead || m.MsgType == MsgEnd
  }

  /** Heads and ends on their way. */
  function Owed(ms: seq<Message>): nat {
    if ms == [] then 0 else (if IsQuestion(ms[0]) then 1 else 0) + Owed(ms[1..])
  }

  lemma {:induction false} OwedConcat(a: seq<Message>, b: seq<Message>)
    ensures Owed(a + b) == Owed(a) + Owed(b)
    decreases |a|
  {
    if a == [] {
      assert a + b == b;
    } else {
      OwedConcat(a[1..], b);
      assert (a + b)[0] == a[0] && (a + b)[1..] == a[1..] + b;
    }
  }

  lemma OwedOne(ms: seq<Message>, m: Message)
    ensures Owed(ms + [m]) == Owed(ms) + if IsQuestion(m) then 1 else 0
  {
    OwedConcat(ms, [m]);
    assert [m][1..] == [];
  }

  lemma OwedCut(ms: seq<Message>, k: nat)
    requires k <= |ms|
    ensures Owed(ms[..k]) <= Owed(ms)
  {
    OwedConcat(ms[..k], ms[k..]);
    assert ms[..k] + ms[k..] == ms;
  }

  /** Heads and ends sent so far, at most. */
  function Asked(job: Job, pc: Pc): nat {
    match pc
    case Opening(i) => 2 * i
    case WaitHead(i) => 2 * i + 1
    case Reading(i, _) => 2 * i + 1
    case WaitEnd(i) => 2 * i + 2
    case Returned(_) => 2 * |job.files|
  }

  /** Each side sends only its own kinds of message. */
  ghost predicate InKind(job: Job, s: State) {
    && (forall k :: 0 <= k < |s.toServer| ==> IsQuestion(s.toServer[k]) || s.toServer[k].MsgType == MsgFile
                                                                        || s.toServer[k].MsgType == MsgClose)
    && (forall k :: 0 <= k < |s.toClient| ==> s.toClient[k].MsgType == MsgNotify || s.toClient[k].MsgType == MsgClose)
    && (s.pc.Returned? || s.pc.i + (if s.pc.Opening? then 0 else 1) <= |job.files|)
  }

  /** What may still come back: an answer to each head and end, and a close when the handler stops. */
  function Due(s: State): nat {
    Owed(s.toServer) + if s.server.running then 1 else 0
  }

  /** The sending goroutine's own steps. */
  predicate BySender(a: Action) {
    a.Open? || a.Finish? || a.Read? || a.StopReading? || a.TakeNotify? || a.GiveUp?
  }

  lemma SenderSends(job: Job, s: State, a: Action)
    requires Enabled(job, s, a) && BySender(a)
    ensures var t := Apply(job, s, a);
            t.server == s.server && t.toServer == if s.upServer then s.toServer + Sent(job, s, a) else s.toServer
  {
    assert s.toServer + [] == s.toServer;
  }

  lemma SenderAsks(job: Job, s: State, a: Action)
    requires InKind(job, s) && Enabled(job, s, a) && BySender(a)
    ensures var sent := Sent(job, s, a);
            && |sent| <= 1
            && Asked(job, s.pc) + (if sent != [] && IsQuestion(sent[0]) then 1 else 0)
               <= Asked(job, Apply(job, s, a).pc)
  {
  }

  lemma SenderOwes(job: Job, s: State, a: Action)
    requires InKind(job, s) && Enabled(job, s, a) && BySender(a)
    ensures Due(Apply(job, s, a)) + Asked(job, s.pc) <= Due(s) + Asked(job, Apply(job, s, a).pc)
  {
    SenderSends(job, s, a);
    SenderAsks(job, s, a);
    var sent := Sent(job, s, a);
    if sent == [] {
      assert s.toServer + sent == s.toServer;
    } else {
      assert sent == [sent[0]];
      OwedOne(s.toServer, sent[0]);
    }
  }

  /** A reply pays for a head or an end, or is the last. */
  lemma DueFalls(job: Job, s: State, a: Action)
    requires InKind(job, s) && Enabled(job, s, a)
    ensures Paid(job, s, a) + Due(Apply(job, s, a)) + Asked(job, s.pc) <= Due(s) + Asked(job, Apply(job, s, a).pc)
  {
    if BySender(a) {
      SenderOwes(job, s, a);
    } else if a.ServerHandles? {
      ServerPays(job, s, a.w);
    } else {
      OthersOwe(job, s, a);
    }
  }

  lemma OthersOwe(job: Job, s: State, a: Action)
    requires InKind(job, s) && Enabled(job, s, a) && !BySender(a) && !a.ServerHandles?
    ensures Due(Apply(job, s, a)) <= Due(s) && Apply(job, s, a).pc == s.pc
  {
    match a
    case ClientHandles(w) => ClientPays(job, s, w);
    case CutToServer(k) => OwedCut(s.toServer, k);
    case _ =>
  }

  lemma ClientPays(job: Job, s: State, w: World)
    requires InKind(job, s) && Enabled(job, s, ClientHandles(w))
    ensures var t := Apply(job, s, ClientHandles(w)); t.toServer == s.toServer && t.server == s.server && t.pc == s.pc
  {
    assert s.toClient[0].MsgType == MsgNotify || s.toClient[0].MsgType == MsgClose;
    assert s.toServer + [] == s.toServer;
  }

  lemma ServerPays(job: Job, s: State, w: World)
    requires InKind(job, s) && Enabled(job, s, ServerHandles(w))
    ensures Paid(job, s, ServerHandles(w)) + Due(Apply(job, s, ServerHandles(w))) <= Due(s)
  {
    assert IsQuestion(s.toServer[0]) || s.toServer[0].MsgType == MsgFile || s.toServer[0].MsgType == MsgClose;
  }

  lemma KindStep(job: Job, s: State, a: Action)
    requires InKind(job, s) && Enabled(job, s, a)
    ensures InKind(job, Apply(job, s, a))
  {
    match a
    case ServerHandles(w) => ServerKind(job, s, w);
    case ClientHandles(w) => ClientPays(job, s, w);
    case _ =>
  }

  lemma ServerKind(job: Job, s: State, w: World)
    requires InKind(job, s) && Enabled(job, s, ServerHandles(w))
    ensures InKind(job, Apply(job, s, ServerHandles(w)))
  {
    assert IsQuestion(s.toServer[0]) || s.toServer[0].MsgType == MsgFile || s.toServer[0].MsgType == MsgClose;
  }

  /** In every run the receiver sends at most two messages for each file, and one more. */
  lemma {:induction false} FewReplies(job: Job, disk: map<string, seq<byte>>, run: seq<Action>)
    requires Exec(job, disk, run).Some?
    ensures var s := Exec(job, disk, run).value;
            InKind(job, s) && Replies(job, disk, run) + Due(s) <= Asked(job, s.pc) + 1
    ensures Replies(job, disk, run) <= 2 * |job.files| + 1
    decreases |run|
  {
    if run != [] {
      var k := |run| - 1;
      var before := Exec(job, disk, run[..k]).value;
      FewReplies(job, disk, run[..k]);
      KindStep(job, before, run[k]);
      DueFalls(job, before, run[k]);
    }
  }

  /** So for up to four files, and a chunk or a filler is sent as two, a peer that does what this receiver does
      never makes SendFile hang, in any schedule of its loops. */
  lemma HonestNeverHangs(job: Job, disk: map<string, seq<byte>>, run: seq<Action>, replies: seq<SF.Kind>)
    requires Exec(job, disk, run).Some? && |replies| <= Replies(job, disk, run)
    requires |job.files| <= 4
    ensures !SF.CanHang(SF.Init(replies))
  {
    FewReplies(job, disk, run);
    SF.CanHangExactly(replies);
  }
}
