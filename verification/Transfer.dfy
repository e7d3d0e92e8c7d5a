/** Sending a list of files: the sending goroutine, the handlers at both ends, and a FIFO
    connection that can break at any moment and then delivers only a prefix of what was
    under way. Each step is one goroutine doing one thing, in any order. */
module Transfer {
  import opened Wrappers
  import opened Numerals
  import opened Messages
  import opened Handler

  datatype File = File(name: string, fid: string, data: seq<byte>)

  datatype Job = Job(files: seq<File>, fileType: nat, pkey: seq<byte>, signMsg: seq<byte>, sign: seq<byte>) {
    function Head(i: nat): Message
      requires i < |files|
    {
      HeadMsg(files[i].name, files[i].fid, fileType, i + 1 == |files|, pkey, signMsg, sign)
    }

    function End(i: nat): Message
      requires i < |files|
    {
      EndMsg(fileType, files[i].name, files[i].fid, |files[i].data|, i + 1 == |files|)
    }
  }

  /** Where the sending goroutine is: about to open file i, waiting for the answer to its
      head, with `off` bytes read, waiting for the answer to its end, or returned. */
  datatype Pc =
    | Opening(i: nat) | WaitHead(i: nat) | Reading(i: nat, off: nat) | WaitEnd(i: nat)
    | Returned(failed: bool)

  datatype State = State(
    pc: Pc, toServer: seq<Message>, upServer: bool, toClient: seq<Message>, upClient: bool,
    server: ConState, client: ConState)

  datatype Action =
    | Open(ok: bool)
    | Read(n: nat, stale: seq<byte>) // a short read into a recycled buffer
    | StopReading                    // end of file, or the connection is seen closed
    | TakeNotify
    | GiveUp                         // timeout, closed channel or read error
    | Finish
    | ServerHandles(w: World) | ServerStops
    | ClientHandles(w: World) | ClientStops
    | CutToServer(k: nat) | CutToClient(k: nat)

  function Init(job: Job, disk: map<string, seq<byte>>): State {
    State(Opening(0), [], true, [], true, ConState(true, None, disk, [], []), ConState(true, None, map[], [], []))
  }

  predicate Enabled(job: Job, s: State, a: Action) {
    match a
    case Open(_) => s.pc.Opening? && s.pc.i < |job.files|
    case Finish => s.pc.Opening? && s.pc.i >= |job.files|
    case Read(n, stale) =>
      && s.pc.Reading? && s.pc.i < |job.files| && 1 <= n <= SEND_BUFFER
      && s.pc.off + n <= |job.files[s.pc.i].data|
      && n + |stale| == (if job.fileType == FILETYPE_FILLER && n == TAG_BUFFER then TAG_BUFFER else SEND_BUFFER)
    case StopReading => s.pc.Reading? && s.pc.i < |job.files|
    case TakeNotify => (s.pc.WaitHead? || s.pc.WaitEnd?) && s.client.waitNotify != []
    case GiveUp => s.pc.WaitHead? || s.pc.WaitEnd? || s.pc.Reading?
    case ServerHandles(_) => s.toServer != [] && CanHandle(s.server, s.toServer[0])
    case ClientHandles(_) => s.toClient != [] && CanHandle(s.client, s.toClient[0])
    case ServerStops => s.server.running
    case ClientStops => s.client.running
    case CutToServer(k) => k <= |s.toServer|
    case CutToClient(k) => k <= |s.toClient|
  }

  /** A message sent on a broken connection is lost. */
  function SendToServer(s: State, ms: seq<Message>): State {
    if s.upServer then s.(toServer := s.toServer + ms) else s
  }

  function SendToClient(s: State, ms: seq<Message>): State {
    if s.upClient then s.(toClient := s.toClient + ms) else s
  }

  /** sendFile after its loop: a last close message. */
  function Return(s: State, failed: bool): State {
    SendToServer(s, [CloseMsg(STATUS_OK)]).(pc := Returned(failed))
  }

  function Chunk(job: Job, i: nat, off: nat, n: nat, stale: seq<byte>): Message
    requires i < |job.files| && off + n <= |job.files[i].data|
  {
    FileMsg(job.files[i].name, job.fileType, n, job.files[i].data[off..off + n] + stale)
  }

  function Apply(job: Job, s: State, a: Action): State
    requires Enabled(job, s, a)
  {
    match a
    case Open(ok) =>
      if ok then SendToServer(s, [job.Head(s.pc.i)]).(pc := WaitHead(s.pc.i)) else Return(s, true)
    case Finish => Return(s, false)
    case Read(n, stale) =>
      SendToServer(s, [Chunk(job, s.pc.i, s.pc.off, n, stale)]).(pc := Reading(s.pc.i, s.pc.off + n))
    case StopReading => SendToServer(s, [job.End(s.pc.i)]).(pc := WaitEnd(s.pc.i))
    case TakeNotify =>
      var t := s.(client := s.client.(waitNotify := s.client.waitNotify[1..]));
      if !s.client.waitNotify[0] then Return(t, true)
      else t.(pc := if s.pc.WaitHead? then Reading(s.pc.i, 0) else Opening(s.pc.i + 1))
    case GiveUp => Return(s, true)
    case ServerHandles(w) =>
      var (server, replies) := Handle(s.server, s.toServer[0], w);
      SendToClient(s.(server := server, toServer := s.toServer[1..]), replies)
    case ClientHandles(w) =>
      var (client, replies) := Handle(s.client, s.toClient[0], w);
      SendToServer(s.(client := client, toClient := s.toClient[1..]), replies)
    case ServerStops => s.(server := s.server.(running := false))
    case ClientStops => s.(client := s.client.(running := false))
    case CutToServer(k) => s.(toServer := s.toServer[..k], upServer := false)
    case CutToClient(k) => s.(toClient := s.toClient[..k], upClient := false)
  }

  function Exec(job: Job, disk: map<string, seq<byte>>, run: seq<Action>): Option<State> {
    if run == [] then Some(Init(job, disk))
    else
      var before := Exec(job, disk, run[..|run| - 1]);
      var a := run[|run| - 1];
      if before.Some? && Enabled(job, before.value, a) then Some(Apply(job, before.value, a)) else None
  }

  // ----- bytes and answers under way

  predicate IsChunk(m: Message) {
    m.MsgType == MsgFile && m.FileSize <= |m.Bytes|
  }

  predicate AllChunks(ms: seq<Message>) {
    forall k :: 0 <= k < |ms| ==> IsChunk(ms[k])
  }

  /** The file bytes in a list of messages: of each buffer only the part that is meant. */
  function Payload(ms: seq<Message>): seq<byte> {
    if ms == [] then []
    else (if IsChunk(ms[0]) then ms[0].Bytes[..ms[0].FileSize] else []) + Payload(ms[1..])
  }

  lemma {:induction false} PayloadConcat(a: seq<Message>, b: seq<Message>)
    ensures Payload(a + b) == Payload(a) + Payload(b)
    decreases |a|
  {
    if a == [] {
      assert a + b == b;
    } else {
      PayloadConcat(a[1..], b);
      assert (a + b)[0] == a[0] && (a + b)[1..] == a[1..] + b;
      Regroup(if IsChunk(a[0]) then a[0].Bytes[..a[0].FileSize] else [], Payload(a[1..]), Payload(b));
    }
  }

  lemma PayloadOne(m: Message)
    ensures Payload([m]) == if IsChunk(m) then m.Bytes[..m.FileSize] else []
  {
    assert [m][1..] == [];
  }

  lemma PayloadCut(ms: seq<Message>, k: nat)
    requires k <= |ms|
    ensures Payload(ms[..k]) <= Payload(ms)
  {
    assert ms == ms[..k] + ms[k..];
    PayloadConcat(ms[..k], ms[k..]);
  }

  predicate IsReply(m: Message) {
    (m.MsgType == MsgNotify && |m.Bytes| == 1) || m.MsgType == MsgClose
  }

  function Answers(ms: seq<Message>): seq<bool> {
    if ms == [] then [] else Answer(ms[0]) + Answers(ms[1..])
  }

  function Answer(m: Message): seq<bool> {
    if m.MsgType == MsgNotify && m.Bytes != [] then [m.Bytes[0] == STATUS_OK] else []
  }

  lemma {:induction false} AnswersConcat(a: seq<Message>, b: seq<Message>)
    ensures Answers(a + b) == Answers(a) + Answers(b)
    decreases |a|
  {
    if a == [] {
      assert a + b == b;
    } else {
      AnswersConcat(a[1..], b);
      assert (a + b)[0] == a[0] && (a + b)[1..] == a[1..] + b;
      Regroup(Answer(a[0]), Answers(a[1..]), Answers(b));
    }
  }

  /** Answers not yet taken by the sending goroutine, oldest first. */
  function Pending(s: State): seq<bool> {
    s.client.waitNotify + Answers(s.toClient)
  }

  // ----- the invariant

  /** The directory that storing the files one after the other should leave: of several files
      with one name the last. */
  function Merged(files: seq<File>): map<string, seq<byte>> {
    if files == [] then map[]
    else
      var last := files[|files| - 1];
      Merged(files[..|files| - 1])[last.name := last.data]
  }

  /** The server has the first i files. */
  ghost predicate Stored(job: Job, disk: map<string, seq<byte>>, i: nat) {
    && i <= |job.files|
    && forall x :: x in Merged(job.files[..i]) ==> x in disk && disk[x] == Merged(job.files[..i])[x]
  }

  /** The server has the first i files, apart from the name that file i will overwrite. */
  ghost predicate Spared(job: Job, disk: map<string, seq<byte>>, i: nat) {
    && i < |job.files|
    && forall x :: x in Merged(job.files[..i]) && x != job.files[i].name ==>
         x in disk && disk[x] == Merged(job.files[..i])[x]
  }

  /** The server has file i open and, with the bytes on the way, a prefix of it. */
  ghost predicate Receiving(job: Job, s: State, i: nat)
    requires i < |job.files|
  {
    var f := job.files[i];
    s.server.open == Some(f.name) && f.name in s.server.disk && s.server.disk[f.name] + Payload(s.toServer) <= f.data
  }

  ghost predicate InvAt(job: Job, s: State) {
    match s.pc
    case Opening(i) => Stored(job, s.server.disk, i) && s.toServer == [] && Pending(s) == []
    case WaitHead(i) =>
      && Spared(job, s.server.disk, i)
      && (s.toServer == [] || s.toServer == [job.Head(i)])
      && (Pending(s) != [] ==> s.toServer == [])
      && (Pending(s) == [true] && s.server.running ==> Receiving(job, s, i) && s.server.disk[job.files[i].name] == [])
    case Reading(i, off) =>
      && Spared(job, s.server.disk, i) && off <= |job.files[i].data|
      && Pending(s) == [] && AllChunks(s.toServer)
      && (s.server.running ==> Receiving(job, s, i))
      && (s.server.running && s.upServer ==>
            s.server.disk[job.files[i].name] + Payload(s.toServer) == job.files[i].data[..off])
    case WaitEnd(i) =>
      && Spared(job, s.server.disk, i)
      && (s.toServer != [] ==>
            && Pending(s) == [] && ChunksThenEnd(job, s.toServer, i)
            && (s.server.running ==> Receiving(job, s, i)))
      && (Pending(s) == [true] ==> Stored(job, s.server.disk, i + 1))
    case Returned(failed) =>
      !failed ==>
        && Stored(job, s.server.disk, |job.files|)
        && forall k :: 0 <= k < |s.toServer| ==> s.toServer[k].MsgType == MsgClose
  }

  ghost predicate Inv(job: Job, s: State) {
    s.pc == Returned(true) || (
      && (forall k :: 0 <= k < |s.toClient| ==> IsReply(s.toClient[k]))
      && (s.pc.Returned? || |Pending(s)| <= 1)
      && InvAt(job, s))
  }

  lemma OpenKeeps(job: Job, s: State, ok: bool)
    requires Inv(job, s) && Enabled(job, s, Open(ok))
    ensures Inv(job, Apply(job, s, Open(ok)))
  {
    assert [] + [job.Head(s.pc.i)] == [job.Head(s.pc.i)];
  }

  lemma FinishKeeps(job: Job, s: State)
    requires Inv(job, s) && Enabled(job, s, Finish)
    ensures Inv(job, Apply(job, s, Finish))
  {
    var t := Apply(job, s, Finish);
    assert s.pc.i == |job.files| && Stored(job, s.server.disk, |job.files|);
    assert t.server == s.server && t.toClient == s.toClient;
    assert t.toServer == [] || t.toServer == [CloseMsg(STATUS_OK)];
  }

  lemma ReadKeeps(job: Job, s: State, n: nat, stale: seq<byte>)
    requires Inv(job, s) && Enabled(job, s, Read(n, stale))
    ensures Inv(job, Apply(job, s, Read(n, stale)))
  {
    assert Pending(Apply(job, s, Read(n, stale))) == Pending(s);
    if s.upServer {
      ReadSent(job, s, n, stale);
    } else {
      ReadLost(job, s, n, stale);
    }
  }

  lemma ReadLost(job: Job, s: State, n: nat, stale: seq<byte>)
    requires InvAt(job, s) && Enabled(job, s, Read(n, stale)) && !s.upServer
    ensures InvAt(job, Apply(job, s, Read(n, stale)))
  {
  }

  lemma ReadSent(job: Job, s: State, n: nat, stale: seq<byte>)
    requires InvAt(job, s) && Enabled(job, s, Read(n, stale)) && s.upServer
    ensures InvAt(job, Apply(job, s, Read(n, stale)))
  {
    ChunkPayload(job, s.toServer, s.pc.i, s.pc.off, n, stale);
    if s.server.running {
      SentBytes(job, s, n, stale);
    }
    ReadingNext(job, s, Apply(job, s, Read(n, stale)), Chunk(job, s.pc.i, s.pc.off, n, stale), n);
  }

  lemma SentBytes(job: Job, s: State, n: nat, stale: seq<byte>)
    requires s.pc.Reading? && InvAt(job, s) && s.upServer && s.server.running
    requires s.pc.i < |job.files| && s.pc.off + n <= |job.files[s.pc.i].data|
    ensures s.server.disk[job.files[s.pc.i].name] + Payload(s.toServer + [Chunk(job, s.pc.i, s.pc.off, n, stale)])
            == job.files[s.pc.i].data[..s.pc.off + n]
  {
    ChunkPayload(job, s.toServer, s.pc.i, s.pc.off, n, stale);
    Extend(s.server.disk[job.files[s.pc.i].name], Payload(s.toServer), job.files[s.pc.i].data, s.pc.off, n);
  }

  lemma ReadingNext(job: Job, s: State, t: State, m: Message, n: nat)
    requires s.pc.Reading? && InvAt(job, s) && s.pc.i < |job.files| && s.pc.off + n <= |job.files[s.pc.i].data|
    requires t == s.(toServer := s.toServer + [m], pc := Reading(s.pc.i, s.pc.off + n)) && IsChunk(m)
    requires s.server.running ==>
               s.server.disk[job.files[s.pc.i].name] + Payload(t.toServer) == job.files[s.pc.i].data[..s.pc.off + n]
    ensures InvAt(job, t)
  {
    assert Pending(t) == Pending(s);
    assert AllChunks(t.toServer);
  }

  /** A chunk on the way carries the bytes read, and no stale ones. */
  lemma ChunkPayload(job: Job, ms: seq<Message>, i: nat, off: nat, n: nat, stale: seq<byte>)
    requires i < |job.files| && off + n <= |job.files[i].data|
    ensures IsChunk(Chunk(job, i, off, n, stale))
    ensures Payload(ms + [Chunk(job, i, off, n, stale)]) == Payload(ms) + job.files[i].data[off..off + n]
  {
    var m := Chunk(job, i, off, n, stale);
    assert m.Bytes[..n] == job.files[i].data[off..off + n];
    PayloadConcat(ms, [m]);
    PayloadOne(m);
  }

  lemma Extend(got: seq<byte>, way: seq<byte>, data: seq<byte>, off: nat, n: nat)
    requires off + n <= |data| && got + way == data[..off]
    ensures got + (way + data[off..off + n]) == data[..off + n]
  {
  }

  lemma StopReadingKeeps(job: Job, s: State)
    requires Inv(job, s) && Enabled(job, s, StopReading)
    ensures Inv(job, Apply(job, s, StopReading))
  {
    var t := Apply(job, s, StopReading);
    assert Pending(t) == Pending(s) == [];
    if s.upServer {
      EndSent(job, s);
    } else {
      EndLost(job, s);
    }
  }

  lemma EndSent(job: Job, s: State)
    requires InvAt(job, s) && Enabled(job, s, StopReading) && s.upServer
    ensures InvAt(job, Apply(job, s, StopReading))
  {
    var m := job.End(s.pc.i);
    PayloadConcat(s.toServer, [m]);
    PayloadOne(m);
    assert (s.toServer + [m])[..|s.toServer|] == s.toServer;
    assert Payload(s.toServer) + [] == Payload(s.toServer);
  }

  lemma EndLost(job: Job, s: State)
    requires InvAt(job, s) && Enabled(job, s, StopReading) && !s.upServer
    ensures InvAt(job, Apply(job, s, StopReading))
  {
  }

  lemma TakeNotifyKeeps(job: Job, s: State)
    requires Inv(job, s) && Enabled(job, s, TakeNotify)
    ensures Inv(job, Apply(job, s, TakeNotify))
  {
    var taken, rest := s.client.waitNotify[0], s.client.waitNotify[1..] + Answers(s.toClient);
    assert Pending(s) == [taken] + rest;
    assert Pending(Apply(job, s, TakeNotify)) == rest == [];
    if taken {
      assert Pending(s) == [true];
      TakeYes(job, s);
    }
  }

  lemma TakeYes(job: Job, s: State)
    requires InvAt(job, s) && Enabled(job, s, TakeNotify) && s.client.waitNotify[0] && Pending(s) == [true]
    requires Pending(Apply(job, s, TakeNotify)) == []
    ensures InvAt(job, Apply(job, s, TakeNotify))
  {
    if s.pc.WaitHead? {
      assert s.toServer == [] && Payload(s.toServer) == [];
    } else {
      assert s.toServer == [];
    }
  }

  /** The invariant speaks about answers only through Pending. */
  lemma SameView(job: Job, s: State, t: State)
    requires InvAt(job, s) && t.pc == s.pc && t.toServer == s.toServer && t.upServer == s.upServer
    requires t.server == s.server && (Pending(t) == Pending(s) || Pending(t) == [])
    ensures InvAt(job, t)
  {
  }

  /** What remains of the messages on the way after a cut. */
  lemma ReceivingCut(job: Job, s: State, t: State, i: nat, k: nat)
    requires i < |job.files| && k <= |s.toServer| && t == s.(toServer := s.toServer[..k], upServer := false)
    requires Receiving(job, s, i)
    ensures Receiving(job, t, i)
  {
    PayloadCut(s.toServer, k);
  }

  lemma CutToServerKeeps(job: Job, s: State, k: nat)
    requires Inv(job, s) && Enabled(job, s, CutToServer(k))
    ensures Inv(job, Apply(job, s, CutToServer(k)))
  {
    var t := Apply(job, s, CutToServer(k));
    assert Pending(t) == Pending(s);
    match s.pc
    case Reading(i, off) => CutReading(job, s, k);
    case WaitEnd(i) => CutWaitEnd(job, s, k);
    case _ =>
  }

  lemma CutReading(job: Job, s: State, k: nat)
    requires s.pc.Reading? && InvAt(job, s) && k <= |s.toServer|
    ensures InvAt(job, Apply(job, s, CutToServer(k)))
  {
    if s.server.running {
      ReceivingCut(job, s, Apply(job, s, CutToServer(k)), s.pc.i, k);
    }
  }

  lemma CutWaitEnd(job: Job, s: State, k: nat)
    requires s.pc.WaitEnd? && InvAt(job, s) && k <= |s.toServer|
    ensures InvAt(job, Apply(job, s, CutToServer(k)))
  {
    var t := Apply(job, s, CutToServer(k));
    assert Pending(t) == Pending(s);
    if k > 0 {
      FrontOfEnd(job, s.toServer, s.pc.i, k);
      if s.server.running {
        ReceivingCut(job, s, t, s.pc.i, k);
      }
    }
  }

  /** Chunks, and perhaps the end message as the last. */
  ghost predicate ChunksThenEnd(job: Job, ms: seq<Message>, i: nat)
    requires i < |job.files| && ms != []
  {
    var last := |ms| - 1;
    AllChunks(ms[..last]) && (IsChunk(ms[last]) || ms[last] == job.End(i))
  }

  lemma FrontOfEnd(job: Job, ms: seq<Message>, i: nat, k: nat)
    requires i < |job.files| && 0 < k <= |ms| && ChunksThenEnd(job, ms, i)
    ensures ChunksThenEnd(job, ms[..k], i)
  {
    var last := |ms| - 1;
    if k == |ms| {
      assert ms[..k] == ms;
    } else {
      assert ms[..k][k - 1] == ms[..last][k - 1];
      assert ms[..k][..k - 1] == ms[..last][..k - 1];
    }
  }

  lemma AnswersCut(ms: seq<Message>, k: nat)
    requires k <= |ms|
    ensures Answers(ms[..k]) + Answers(ms[k..]) == Answers(ms)
  {
    var a, b := ms[..k], ms[k..];
    assert a + b == ms;
    AnswersConcat(a, b);
  }

  lemma CutToClientKeeps(job: Job, s: State, k: nat)
    requires Inv(job, s) && Enabled(job, s, CutToClient(k))
    ensures Inv(job, Apply(job, s, CutToClient(k)))
  {
    if s.pc != Returned(true) {
      CutAnswers(job, s, k);
    }
  }

  lemma CutAnswers(job: Job, s: State, k: nat)
    requires InvAt(job, s) && k <= |s.toClient| && (s.pc.Returned? || |Pending(s)| <= 1)
    ensures var t := Apply(job, s, CutToClient(k)); InvAt(job, t) && (s.pc.Returned? || |Pending(t)| <= 1)
  {
    var t := Apply(job, s, CutToClient(k));
    AnswersCut(s.toClient, k);
    assert Pending(s) == Pending(t) + Answers(s.toClient[k..]);
    SameViewOrReturned(job, s, t);
  }

  lemma SameViewOrReturned(job: Job, s: State, t: State)
    requires InvAt(job, s) && t.pc == s.pc && t.toServer == s.toServer && t.upServer == s.upServer
    requires t.server == s.server && (s.pc.Returned? || Pending(t) == Pending(s) || Pending(t) == [])
    ensures InvAt(job, t)
  {
    if !s.pc.Returned? {
      SameView(job, s, t);
    }
  }

  lemma ClientHandlesKeeps(job: Job, s: State, w: World)
    requires Inv(job, s) && Enabled(job, s, ClientHandles(w))
    ensures Inv(job, Apply(job, s, ClientHandles(w)))
  {
    var t := Apply(job, s, ClientHandles(w));
    if s.pc != Returned(true) {
      var m := s.toClient[0];
      assert IsReply(m);
      ReplyHandled(s.client, m, w);
      assert s.toServer + [] == s.toServer;
      Regroup(s.client.waitNotify, Answer(m), Answers(s.toClient[1..]));
      SameViewOrReturned(job, s, t);
    }
  }

  lemma ReplyHandled(c: ConState, m: Message, w: World)
    requires IsReply(m) && CanHandle(c, m)
    ensures var (client, replies) := Handle(c, m, w); replies == [] && client.waitNotify == c.waitNotify + Answer(m)
  {
  }

  // ----- the server's steps

  /** Replies reach the pending answers, unless the connection back is broken. */
  lemma Replied(s: State, w: World)
    requires s.toServer != [] && CanHandle(s.server, s.toServer[0])
    requires forall k :: 0 <= k < |s.toClient| ==> IsReply(s.toClient[k])
    ensures var (server, replies) := Handle(s.server, s.toServer[0], w);
            var t := SendToClient(s.(server := server, toServer := s.toServer[1..]), replies);
            && (Pending(t) == Pending(s) || Pending(t) == Pending(s) + Answers(replies))
            && (replies == [] ==> Pending(t) == Pending(s))
            && ((forall k :: 0 <= k < |replies| ==> IsReply(replies[k])) ==>
                  forall k :: 0 <= k < |t.toClient| ==> IsReply(t.toClient[k]))
  {
    AnswersConcat(s.toClient, Handle(s.server, s.toServer[0], w).1);
  }

  lemma OneAnswer(m: Message)
    ensures Answers([m]) == Answer(m)
  {
    assert [m][1..] == [];
  }

  lemma ServerOnHead(job: Job, s: State, w: World)
    requires s.pc.WaitHead? && Inv(job, s) && Enabled(job, s, ServerHandles(w))
    ensures Inv(job, Apply(job, s, ServerHandles(w)))
  {
    var t := Apply(job, s, ServerHandles(w));
    Replied(s, w);
    HeadReplies(job, s.server, s.pc.i, w);
    assert Pending(s) == [] && t.toServer == [];
    HeadAfter(job, s, t);
  }

  lemma HeadReplies(job: Job, c: ConState, i: nat, w: World)
    requires i < |job.files| && CanHandle(c, job.Head(i))
    ensures var (server, replies) := Handle(c, job.Head(i), w);
            && (forall k :: 0 <= k < |replies| ==> IsReply(replies[k])) && |Answers(replies)| <= 1
            && (if Answers(replies) == [true]
                then server == c.(open := Some(job.files[i].name), disk := c.disk[job.files[i].name := []])
                else !server.running && server.disk == c.disk)
  {
    HeadAnswered(job, c, i, w);
    var replies := Handle(c, job.Head(i), w).1;
    if replies != [] {
      OneAnswer(replies[0]);
      assert replies == [replies[0]];
    }
  }

  /** Either the file is open and empty and the answer is yes, or the handler stops with a no, or, for
      a panic when it looks up the file, without an answer. */
  lemma HeadAnswered(job: Job, c: ConState, i: nat, w: World)
    requires i < |job.files| && CanHandle(c, job.Head(i))
    ensures var (server, replies) := Handle(c, job.Head(i), w);
            var name := job.files[i].name;
            || ((replies == [NotifyMsg("", STATUS_ERR, "")] || replies == []) &&
                (server == c.(running := false) || server == c.(running := false, open := None)))
            || (replies == [NotifyMsg(name, STATUS_OK, "")] &&
                server == c.(open := Some(name), disk := c.disk[name := []]))
  {
  }

  lemma HeadAfter(job: Job, s: State, t: State)
    requires s.pc.WaitHead? && InvAt(job, s) && t.pc == s.pc && t.toServer == []
    requires |Pending(t)| <= 1
    requires var name := job.files[s.pc.i].name;
             || t.server == s.server.(open := Some(name), disk := s.server.disk[name := []])
             || (!t.server.running && t.server.disk == s.server.disk && Pending(t) != [true])
    ensures InvAt(job, t)
  {
    assert Payload(t.toServer) == [];
  }

  lemma ServerOnChunk(job: Job, s: State, w: World)
    requires s.pc.Reading? && Inv(job, s) && Enabled(job, s, ServerHandles(w))
    ensures Inv(job, Apply(job, s, ServerHandles(w)))
  {
    var t := Apply(job, s, ServerHandles(w));
    Replied(s, w);
    ChunkAnswered(s.server, s.toServer[0], w);
    ChunkStored(job, s, t, s.pc.i, w);
    ReadingAfter(job, s, t);
  }

  lemma ChunkAnswered(c: ConState, m: Message, w: World)
    requires IsChunk(m) && CanHandle(c, m)
    ensures var replies := Handle(c, m, w).1;
            Answers(replies) == [] && forall k :: 0 <= k < |replies| ==> IsReply(replies[k])
  {
    if Handle(c, m, w).1 != [] {
      OneAnswer(CloseMsg(STATUS_ERR));
    }
  }

  lemma ReadingAfter(job: Job, s: State, t: State)
    requires s.pc.Reading? && InvAt(job, s) && t.pc == s.pc && s.toServer != [] && s.server.running
    requires t.toServer == s.toServer[1..] && t.upServer == s.upServer && Pending(t) == []
    requires t.server.running ==> Receiving(job, t, s.pc.i)
    requires t.server.running ==>
               t.server.disk[job.files[s.pc.i].name] + Payload(t.toServer)
               == s.server.disk[job.files[s.pc.i].name] + Payload(s.toServer)
    requires Spared(job, t.server.disk, s.pc.i)
    ensures InvAt(job, t)
  {
  }

  /** Handling the first chunk on the way moves its bytes to the end of the stored file. */
  lemma ChunkStored(job: Job, s: State, t: State, i: nat, w: World)
    requires i < |job.files| && s.toServer != [] && IsChunk(s.toServer[0]) && s.server.running
    requires CanHandle(s.server, s.toServer[0]) && Receiving(job, s, i)
    requires t.server == Handle(s.server, s.toServer[0], w).0 && t.toServer == s.toServer[1..]
    ensures t.server.running ==> Receiving(job, t, i)
    ensures t.server.running ==>
              t.server.disk[job.files[i].name] + Payload(t.toServer)
              == s.server.disk[job.files[i].name] + Payload(s.toServer)
    ensures Spared(job, s.server.disk, i) ==> Spared(job, t.server.disk, i)
  {
    var name, m := job.files[i].name, s.toServer[0];
    var chunk := m.Bytes[..m.FileSize];
    assert Payload(s.toServer) == chunk + Payload(t.toServer);
    var got := s.server.disk[name];
    assert (got + chunk) + Payload(t.toServer) == got + (chunk + Payload(t.toServer));
  }

  lemma ServerAtEnd(job: Job, s: State, w: World)
    requires s.pc.WaitEnd? && Inv(job, s) && Enabled(job, s, ServerHandles(w))
    ensures Inv(job, Apply(job, s, ServerHandles(w)))
  {
    var t := Apply(job, s, ServerHandles(w));
    var m, last := s.toServer[0], |s.toServer| - 1;
    Replied(s, w);
    if last > 0 {
      assert m == s.toServer[..last][0];
    }
    if IsChunk(m) {
      ChunkAnswered(s.server, m, w);
      ChunkStored(job, s, t, s.pc.i, w);
      WaitEndAfter(job, s, t);
    } else {
      assert s.toServer == [m];
      ServerOnEnd(job, s, w);
    }
  }

  lemma ServerOnEnd(job: Job, s: State, w: World)
    requires s.pc.WaitEnd? && Inv(job, s) && Enabled(job, s, ServerHandles(w))
    requires s.toServer == [job.End(s.pc.i)]
    ensures Inv(job, Apply(job, s, ServerHandles(w)))
  {
    var t := Apply(job, s, ServerHandles(w));
    var replies := Handle(s.server, s.toServer[0], w).1;
    Replied(s, w);
    EndAnswered(job, s, t, w);
    OneAnswer(replies[0]);
    assert replies == [replies[0]] && IsReply(replies[0]);
    assert t.toServer == [] && Pending(s) + Answers(replies) == Answers(replies);
    assert Pending(t) == [true] ==> replies[0].Bytes[0] == STATUS_OK;
  }

  lemma WaitEndAfter(job: Job, s: State, t: State)
    requires s.pc.WaitEnd? && InvAt(job, s) && t.pc == s.pc && s.toServer != [] && IsChunk(s.toServer[0])
    requires t.toServer == s.toServer[1..] && Pending(t) == [] && s.server.running
    requires t.server.running ==> Receiving(job, t, s.pc.i)
    requires Spared(job, t.server.disk, s.pc.i)
    ensures InvAt(job, t)
  {
    var last := |s.toServer| - 1;
    if last > 0 {
      assert t.toServer[..last - 1] == s.toServer[..last][1..];
    }
  }

  /** The end message: the answer is yes only if the stored file is complete. */
  lemma EndAnswered(job: Job, s: State, t: State, w: World)
    requires s.pc.WaitEnd? && Spared(job, s.server.disk, s.pc.i) && s.toServer == [job.End(s.pc.i)]
    requires Receiving(job, s, s.pc.i) && CanHandle(s.server, s.toServer[0])
    requires t.server == Handle(s.server, s.toServer[0], w).0
    ensures Spared(job, t.server.disk, s.pc.i)
    ensures Handle(s.server, s.toServer[0], w).1 == [NotifyMsg(job.files[s.pc.i].name, STATUS_OK, "")] ==>
              Stored(job, t.server.disk, s.pc.i + 1)
    ensures var replies := Handle(s.server, s.toServer[0], w).1;
            replies == [NotifyMsg(job.files[s.pc.i].name, STATUS_OK, "")] || replies == [NotifyMsg("", STATUS_ERR, "")]
  {
    PayloadOne(s.toServer[0]);
    if t.server.disk[job.files[s.pc.i].name] == job.files[s.pc.i].data {
      StoredAfter(job, t.server.disk, s.pc.i);
    }
  }

  lemma StoredAfter(job: Job, disk: map<string, seq<byte>>, i: nat)
    requires Spared(job, disk, i) && job.files[i].name in disk && disk[job.files[i].name] == job.files[i].data
    ensures Stored(job, disk, i + 1)
  {
    assert job.files[..i + 1][..i] == job.files[..i];
  }

  lemma ServerHandlesKeeps(job: Job, s: State, w: World)
    requires Inv(job, s) && Enabled(job, s, ServerHandles(w))
    ensures Inv(job, Apply(job, s, ServerHandles(w)))
  {
    match s.pc
    case WaitHead(_) => ServerOnHead(job, s, w);
    case Reading(_, _) => ServerOnChunk(job, s, w);
    case WaitEnd(_) => ServerAtEnd(job, s, w);
    case _ =>
  }

  lemma InvStep(job: Job, s: State, a: Action)
    requires Inv(job, s) && Enabled(job, s, a)
    ensures Inv(job, Apply(job, s, a))
  {
    match a
    case Open(ok) => OpenKeeps(job, s, ok);
    case Finish => FinishKeeps(job, s);
    case Read(n, stale) => ReadKeeps(job, s, n, stale);
    case StopReading => StopReadingKeeps(job, s);
    case TakeNotify => TakeNotifyKeeps(job, s);
    case GiveUp =>
    case ServerHandles(w) => ServerHandlesKeeps(job, s, w);
    case ClientHandles(w) => ClientHandlesKeeps(job, s, w);
    case ServerStops => StopKeeps(job, s, Apply(job, s, a));
    case ClientStops => StopKeeps(job, s, Apply(job, s, a));
    case CutToServer(k) => CutToServerKeeps(job, s, k);
    case CutToClient(k) => CutToClientKeeps(job, s, k);
  }

  lemma StopKeeps(job: Job, s: State, t: State)
    requires Inv(job, s)
    requires t == s.(server := s.server.(running := false)) || t == s.(client := s.client.(running := false))
    ensures Inv(job, t)
  {
    assert Pending(t) == Pending(s);
  }

  lemma {:induction false} InvAlways(job: Job, disk: map<string, seq<byte>>, run: seq<Action>)
    ensures Exec(job, disk, run).Some? ==> Inv(job, Exec(job, disk, run).value)
    decreases |run|
  {
    if run != [] {
      var init := run[..|run| - 1];
      InvAlways(job, disk, init);
      if Exec(job, disk, run).Some? {
        InvStep(job, Exec(job, disk, init).value, run[|run| - 1]);
      }
    }
  }

  /** Transfer safety: in every run, once sendFile has returned without an error, the receiver
      has under every listed name exactly the bytes of the last file listed under it. */
  lemma TransferSafety(job: Job, disk: map<string, seq<byte>>, run: seq<Action>)
    requires Exec(job, disk, run).Some? && Exec(job, disk, run).value.pc == Returned(false)
    ensures var got := Exec(job, disk, run).value.server.disk;
            forall x :: x in Merged(job.files) ==> x in got && got[x] == Merged(job.files)[x]
  {
    InvAlways(job, disk, run);
    assert job.files[..|job.files|] == job.files;
  }

  /** Files listed under one name are one file. */
  ghost predicate NamesDetermineData(files: seq<File>) {
    forall i, j :: 0 <= i < j < |files| && files[i].name == files[j].name ==> files[i].data == files[j].data
  }

  lemma {:induction false} MergedHasAll(files: seq<File>)
    ensures forall f :: f in files ==> f.name in Merged(files)
    ensures NamesDetermineData(files) <==>
            forall f :: f in files ==> f.name in Merged(files) && Merged(files)[f.name] == f.data
    decreases |files|
  {
    if files != [] {
      var front, last := files[..|files| - 1], files[|files| - 1];
      MergedHasAll(front);
      assert files == front + [last];
      if forall f :: f in files ==> Merged(files)[f.name] == f.data {
        forall i, j | 0 <= i < j < |files| && files[i].name == files[j].name ensures files[i].data == files[j].data {
          assert files[i] in files && files[j] in files;
        }
      }
      if NamesDetermineData(files) {
        assert NamesDetermineData(front) by {
          assert forall i :: 0 <= i < |front| ==> front[i] == files[i];
        }
        forall f | f in front ensures Merged(files)[f.name] == f.data {
          var i :| 0 <= i < |front| && front[i] == f;
          assert files[i] == f && files[|files| - 1] == last;
        }
      }
    }
  }

  /** Every listed file is at the receiver with the sender's bytes after a success exactly when
      files of the same base name have the same contents. */
  lemma AllFilesArriveExactly(job: Job, disk: map<string, seq<byte>>, run: seq<Action>)
    requires Exec(job, disk, run).Some? && Exec(job, disk, run).value.pc == Returned(false)
    ensures NamesDetermineData(job.files) <==>
            forall f :: f in job.files ==>
              var got := Exec(job, disk, run).value.server.disk; f.name in got && got[f.name] == f.data
  {
    TransferSafety(job, disk, run);
    MergedHasAll(job.files);
  }

  // ----- no backup is started

  /** End messages on the way carry no signature, and nothing has been backed up. */
  ghost predicate Unsigned(s: State) {
    && s.server.backups == []
    && forall k :: 0 <= k < |s.toServer| && s.toServer[k].MsgType == MsgEnd ==> s.toServer[k].SignMsg == []
  }

  lemma RepliesAreNoEnds(c: ConState, m: Message, w: World)
    requires CanHandle(c, m)
    ensures forall k :: 0 <= k < |Handle(c, m, w).1| ==> Handle(c, m, w).1[k].MsgType != MsgEnd
  {
  }

  lemma UnsignedStep(job: Job, s: State, a: Action)
    requires Unsigned(s) && Enabled(job, s, a)
    ensures Unsigned(Apply(job, s, a))
  {
    match a
    case ServerHandles(w) => BackupStartsExactly(s.server, s.toServer[0], w);
    case ClientHandles(w) => RepliesAreNoEnds(s.client, s.toClient[0], w);
    case _ =>
  }

  /** In every run, whether sendFile succeeds or not, the receiver starts no backup: the end message
      sendFile builds has no signature bytes. */
  lemma {:induction false} NoBackupStarts(job: Job, disk: map<string, seq<byte>>, run: seq<Action>)
    requires Exec(job, disk, run).Some?
    ensures Unsigned(Exec(job, disk, run).value)
    decreases |run|
  {
    if run != [] {
      var init := run[..|run| - 1];
      NoBackupStarts(job, disk, init);
      UnsignedStep(job, Exec(job, disk, init).value, run[|run| - 1]);
    }
  }

  // ----- what the messages carry, and how the receiver ends

  /** The head and the end of a file name it and its id, say whether it is the last, and the one carries
      the caller's key, text and signature, the other the size. A chunk names the file and brings the bytes
      read in front of what the buffer held before. */
  lemma JobMessages(job: Job, i: nat)
    requires i < |job.files|
    ensures var (m, f) := (job.Head(i), job.files[i]);
            && m.MsgType == MsgHead && m.FileName == f.name && m.FileHash == f.fid && m.FileType == job.fileType
            && m.Pubkey == job.pkey && m.SignMsg == job.signMsg && m.Sign == job.sign
            && (m.LastMark <==> i == |job.files| - 1)
    ensures var (m, f) := (job.End(i), job.files[i]);
            && m.MsgType == MsgEnd && m.FileName == f.name && m.FileHash == f.fid && m.FileType == job.fileType
            && m.FileSize == |f.data| && m.SignMsg == [] && (m.LastMark <==> i == |job.files| - 1)
    ensures forall off: nat, n: nat, stale :: off + n <= |job.files[i].data| ==>
              var m := Chunk(job, i, off, n, stale);
              && m.MsgType == MsgFile && m.FileName == job.files[i].name && m.FileType == job.fileType
              && m.FileSize == n && m.Bytes == job.files[i].data[off..off + n] + stale && !m.LastMark
  {
  }

  /** Once sendFile has returned, a close is on its way to a receiver that still runs, if the connection
      holds. */
  ghost predicate CloseIsComing(s: State) {
    s.pc.Returned? && s.upServer && s.server.running ==>
      exists k :: 0 <= k < |s.toServer| && s.toServer[k].MsgType == MsgClose
  }

  lemma CloseSent(s: State, m: Message)
    requires m.MsgType == MsgClose && s.upServer
    ensures exists k :: 0 <= k < |SendToServer(s, [m]).toServer| && SendToServer(s, [m]).toServer[k].MsgType == MsgClose
  {
    var ms := SendToServer(s, [m]).toServer;
    assert ms == s.toServer + [m] && ms[|s.toServer|] == m;
  }

  lemma CloseStep(job: Job, s: State, a: Action)
    requires CloseIsComing(s) && Enabled(job, s, a)
    ensures CloseIsComing(Apply(job, s, a))
  {
    var t := Apply(job, s, a);
    if t.pc.Returned? && t.upServer && t.server.running {
      if !s.pc.Returned? {
        CloseSent(if a.TakeNotify? then s.(client := t.client) else s, CloseMsg(STATUS_OK));
      } else {
        var k :| 0 <= k < |s.toServer| && s.toServer[k].MsgType == MsgClose;
        if a.ServerHandles? {
          StopsExactly(s.server, s.toServer[0], a.w);
          assert t.toServer[k - 1] == s.toServer[k];
        } else {
          assert t.toServer[k] == s.toServer[k];
        }
      }
    }
  }

  /** In every run, whatever sendFile returned: if the connection to the receiver was never cut and all
      messages have been handled, the receiver's handler has stopped. */
  lemma {:induction false} ReceiverStops(job: Job, disk: map<string, seq<byte>>, run: seq<Action>)
    requires Exec(job, disk, run).Some?
    ensures var s := Exec(job, disk, run).value;
            CloseIsComing(s) && (s.pc.Returned? && s.upServer && s.toServer == [] ==> !s.server.running)
    decreases |run|
  {
    if run != [] {
      var init := run[..|run| - 1];
      ReceiverStops(job, disk, init);
      CloseStep(job, Exec(job, disk, init).value, run[|run| - 1]);
    }
  }

  // ----- every run and single steps

  ghost predicate Reachable(job: Job, disk: map<string, seq<byte>>, s: State) {
    exists run :: Exec(job, disk, run) == Some(s)
  }

  lemma Then(job: Job, disk: map<string, seq<byte>>, s: State, a: Action)
    requires Reachable(job, disk, s) && Enabled(job, s, a)
    ensures Reachable(job, disk, Apply(job, s, a))
  {
    var run :| Exec(job, disk, run) == Some(s);
    assert (run + [a])[..|run|] == run;
    assert Exec(job, disk, run + [a]) == Some(Apply(job, s, a));
  }

  // ----- a run that succeeds

  /** The messages a step sends, to either side. */
  function Sent(job: Job, s: State, a: Action): seq<Message>
    requires Enabled(job, s, a)
  {
    match a
    case Open(ok) => [if ok then job.Head(s.pc.i) else CloseMsg(STATUS_OK)]
    case Read(n, stale) => [Chunk(job, s.pc.i, s.pc.off, n, stale)]
    case StopReading => [job.End(s.pc.i)]
    case TakeNotify => if s.client.waitNotify[0] then [] else [CloseMsg(STATUS_OK)]
    case GiveUp => [CloseMsg(STATUS_OK)]
    case Finish => [CloseMsg(STATUS_OK)]
    case ServerHandles(w) => Handle(s.server, s.toServer[0], w).1
    case ClientHandles(w) => Handle(s.client, s.toClient[0], w).1
    case _ => []
  }

  /** A step that is no cut and sends only messages of which `fits` holds. */
  predicate Smooth(job: Job, s: State, a: Action, fits: Message -> bool)
    requires Enabled(job, s, a)
  {
    !a.CutToServer? && !a.CutToClient? && forall m :: m in Sent(job, s, a) ==> fits(m)
  }

  /** A run of such steps. */
  predicate SmoothRun(job: Job, disk: map<string, seq<byte>>, run: seq<Action>, fits: Message -> bool)
    decreases |run|
  {
    run == [] || (
      && SmoothRun(job, disk, run[..|run| - 1], fits)
      && var before := Exec(job, disk, run[..|run| - 1]);
         var a := run[|run| - 1];
         before.Some? && Enabled(job, before.value, a) && Smooth(job, before.value, a, fits))
  }

  ghost predicate Smoothly(job: Job, disk: map<string, seq<byte>>, fits: Message -> bool, s: State) {
    exists run :: SmoothRun(job, disk, run, fits) && Exec(job, disk, run) == Some(s)
  }

  lemma SmoothlyOn(job: Job, disk: map<string, seq<byte>>, fits: Message -> bool, s: State, a: Action)
    requires Smoothly(job, disk, fits, s) && Enabled(job, s, a) && Smooth(job, s, a, fits)
    ensures Smoothly(job, disk, fits, Apply(job, s, a))
  {
    var run :| SmoothRun(job, disk, run, fits) && Exec(job, disk, run) == Some(s);
    assert (run + [a])[..|run|] == run;
    assert SmoothRun(job, disk, run + [a], fits) && Exec(job, disk, run + [a]) == Some(Apply(job, s, a));
  }

  /** Whatever smooth steps keep, such as that some smooth run leads to the state. */
  ghost predicate Kept(job: Job, fits: Message -> bool, at: State -> bool) {
    forall s, a :: at(s) && Enabled(job, s, a) && Smooth(job, s, a, fits) ==> at(Apply(job, s, a))
  }

  lemma Goes(job: Job, fits: Message -> bool, at: State -> bool, s: State, a: Action)
    requires Kept(job, fits, at) && at(s) && Enabled(job, s, a) && Smooth(job, s, a, fits)
    ensures at(Apply(job, s, a))
  {
  }

  const ZEROS: seq<byte> := seq<byte>(SEND_BUFFER - 1, _ => 0)

  /** Heads, ends, chunks of one byte, affirmative answers and the last close message. */
  ghost predicate Allows(job: Job, fits: Message -> bool) {
    && fits(CloseMsg(STATUS_OK))
    && forall i :: 0 <= i < |job.files| ==> AllowsFile(job, i, fits)
  }

  ghost predicate AllowsFile(job: Job, i: nat, fits: Message -> bool)
    requires i < |job.files|
  {
    && fits(job.Head(i)) && fits(job.End(i)) && fits(NotifyMsg(job.files[i].name, STATUS_OK, ""))
    && forall off :: 0 <= off < |job.files[i].data| ==> fits(Chunk(job, i, off, 1, ZEROS))
  }

  const GOOD := World(true, StateOther, true, None, true, 0, [])

  /** Nothing under way, both handlers running, both connections up. */
  ghost predicate Quiet(s: State) {
    && s.toServer == [] && s.toClient == [] && s.upServer && s.upClient
    && s.server.running && s.client.running && s.client.waitNotify == []
  }

  /** The server answers yes and the sending goroutine takes the answer. */
  lemma Answered(job: Job, fits: Message -> bool, at: State -> bool, s: State, m: Message, name: string)
    returns (t: State)
    requires Kept(job, fits, at) && at(s) && (s.pc.WaitHead? || s.pc.WaitEnd?)
    requires Quiet(s.(toServer := [])) && s.toServer == [m] && s.client.open == None && CanHandle(s.server, m)
    requires Handle(s.server, m, GOOD).1 == [NotifyMsg(name, STATUS_OK, "")] && fits(NotifyMsg(name, STATUS_OK, ""))
    ensures at(t)
    ensures t == s.(toServer := [], server := Handle(s.server, m, GOOD).0,
                    pc := if s.pc.WaitHead? then Reading(s.pc.i, 0) else Opening(s.pc.i + 1))
  {
    var server := Handle(s.server, m, GOOD).0;
    ReplyGoes(job, fits, at, s, server, NotifyMsg(name, STATUS_OK, ""));
    t := Notified(job, fits, at, s.(toServer := [], toClient := [NotifyMsg(name, STATUS_OK, "")], server := server),
                  name);
  }

  lemma ReplyGoes(job: Job, fits: Message -> bool, at: State -> bool, s: State, server: ConState,
                  reply: Message)
    requires Kept(job, fits, at) && at(s) && |s.toServer| == 1 && s.toClient == [] && s.upClient
    requires CanHandle(s.server, s.toServer[0]) && Handle(s.server, s.toServer[0], GOOD) == (server, [reply])
    requires fits(reply)
    ensures at(s.(toServer := [], toClient := [reply], server := server))
  {
    assert Sent(job, s, ServerHandles(GOOD)) == [reply];
    assert Apply(job, s, ServerHandles(GOOD)) == s.(toServer := [], toClient := [reply], server := server);
    Goes(job, fits, at, s, ServerHandles(GOOD));
  }

  /** A yes on its way back is taken. */
  lemma Notified(job: Job, fits: Message -> bool, at: State -> bool, s: State, name: string)
    returns (t: State)
    requires Kept(job, fits, at) && at(s) && (s.pc.WaitHead? || s.pc.WaitEnd?)
    requires s.toClient == [NotifyMsg(name, STATUS_OK, "")] && s.upClient
    requires s.client.running && s.client.waitNotify == [] && s.client.open == None
    ensures at(t)
    ensures t == s.(toClient := [], pc := if s.pc.WaitHead? then Reading(s.pc.i, 0) else Opening(s.pc.i + 1))
  {
    YesGoes(job, fits, at, s, name);
    t := TakeGoes(job, fits, at, s.(toClient := [], client := s.client.(waitNotify := [true])), s.client);
  }

  lemma TakeGoes(job: Job, fits: Message -> bool, at: State -> bool, s: State, client: ConState)
    returns (t: State)
    requires Kept(job, fits, at) && at(s) && (s.pc.WaitHead? || s.pc.WaitEnd?)
    requires client.waitNotify == [] && s.client == client.(waitNotify := [true])
    ensures at(t)
    ensures t == s.(client := client, pc := if s.pc.WaitHead? then Reading(s.pc.i, 0) else Opening(s.pc.i + 1))
  {
    assert [true][1..] == [] && Sent(job, s, TakeNotify) == [];
    assert s.client.(waitNotify := []) == client;
    t := Apply(job, s, TakeNotify);
    Goes(job, fits, at, s, TakeNotify);
  }

  lemma YesGoes(job: Job, fits: Message -> bool, at: State -> bool, s: State, name: string)
    requires Kept(job, fits, at) && at(s) && s.toClient == [NotifyMsg(name, STATUS_OK, "")]
    requires s.client.running && s.client.waitNotify == [] && s.client.open == None
    ensures at(s.(toClient := [], client := s.client.(waitNotify := [true])))
  {
    YesHandled(s, name);
    assert Sent(job, s, ClientHandles(GOOD)) == [];
    assert Apply(job, s, ClientHandles(GOOD)) == s.(toClient := [], client := s.client.(waitNotify := [true]));
    Goes(job, fits, at, s, ClientHandles(GOOD));
  }

  lemma YesHandled(s: State, name: string)
    requires s.toClient == [NotifyMsg(name, STATUS_OK, "")]
    requires s.client.running && s.client.waitNotify == [] && s.client.open == None
    ensures CanHandle(s.client, s.toClient[0])
    ensures Handle(s.client, s.toClient[0], GOOD) == (s.client.(waitNotify := [true]), [])
    ensures SendToServer(s, []) == s
  {
    assert s.toServer + [] == s.toServer;
    assert s.client.waitNotify + [true] == [true];
  }

  lemma {:induction false} SendRest(job: Job, fits: Message -> bool, at: State -> bool, s: State)
    returns (t: State)
    requires Kept(job, fits, at) && at(s) && s.pc.Reading? && s.pc.i < |job.files| && AllowsFile(job, s.pc.i, fits)
    requires s.pc.off <= |job.files[s.pc.i].data|
    requires Quiet(s) && s.server.open == Some(job.files[s.pc.i].name)
    requires job.files[s.pc.i].name in s.server.disk
    requires s.server.disk[job.files[s.pc.i].name] == job.files[s.pc.i].data[..s.pc.off]
    ensures at(t) && Quiet(t) && t.client == s.client && t.server.open == s.server.open
    ensures t.pc == Reading(s.pc.i, |job.files[s.pc.i].data|)
    ensures job.files[s.pc.i].name in t.server.disk && t.server.disk[job.files[s.pc.i].name] == job.files[s.pc.i].data
    decreases |job.files[s.pc.i].data| - s.pc.off
  {
    var f, off := job.files[s.pc.i], s.pc.off;
    if off == |f.data| {
      t := s;
    } else {
      var s2 := SendByte(job, fits, at, s);
      assert f.data[..off] + f.data[off..off + 1] == f.data[..off + 1];
      t := SendRest(job, fits, at, s2);
    }
  }

  /** A read of one byte, and its way to the end of the stored file. */
  lemma SendByte(job: Job, fits: Message -> bool, at: State -> bool, s: State) returns (t: State)
    requires Kept(job, fits, at) && at(s) && s.pc.Reading? && s.pc.i < |job.files| && AllowsFile(job, s.pc.i, fits)
    requires s.pc.off < |job.files[s.pc.i].data|
    requires Quiet(s) && s.server.open == Some(job.files[s.pc.i].name) && job.files[s.pc.i].name in s.server.disk
    ensures at(t)
    ensures var (i, off, name) := (s.pc.i, s.pc.off, job.files[s.pc.i].name);
            t == s.(pc := Reading(i, off + 1), server := s.server.(disk := s.server.disk[name :=
                      s.server.disk[name] + job.files[i].data[off..off + 1]]))
  {
    var m := Chunk(job, s.pc.i, s.pc.off, 1, ZEROS);
    var s1 := s.(pc := Reading(s.pc.i, s.pc.off + 1), toServer := [m]);
    ReadGoes(job, fits, at, s, ZEROS);
    t := StoreByte(job, fits, at, s1, m, job.files[s.pc.i].name);
    assert m.Bytes[..1] == job.files[s.pc.i].data[s.pc.off..s.pc.off + 1];
  }

  lemma ReadGoes(job: Job, fits: Message -> bool, at: State -> bool, s: State, stale: seq<byte>)
    requires Kept(job, fits, at) && at(s) && Enabled(job, s, Read(1, stale)) && s.toServer == [] && s.upServer
    requires fits(Chunk(job, s.pc.i, s.pc.off, 1, stale))
    ensures at(s.(pc := Reading(s.pc.i, s.pc.off + 1),
                                         toServer := [Chunk(job, s.pc.i, s.pc.off, 1, stale)]))
  {
    var m := Chunk(job, s.pc.i, s.pc.off, 1, stale);
    assert Apply(job, s, Read(1, stale)) == s.(pc := Reading(s.pc.i, s.pc.off + 1), toServer := [m]);
    assert Sent(job, s, Read(1, stale)) == [m];
    Goes(job, fits, at, s, Read(1, stale));
  }

  lemma StoreByte(job: Job, fits: Message -> bool, at: State -> bool, s: State, m: Message, name: string)
    returns (t: State)
    requires Kept(job, fits, at) && at(s) && s.toServer == [m] && IsChunk(m) && s.toClient == []
    requires s.server.running && s.server.open == Some(name) && name in s.server.disk
    ensures at(t)
    ensures t == s.(toServer := [], server := s.server.(disk := s.server.disk[name :=
                      s.server.disk[name] + m.Bytes[..m.FileSize]]))
  {
    ChunkHandled(s.server, m, name);
    t := s.(toServer := [], server := Handle(s.server, m, GOOD).0);
    assert Apply(job, s, ServerHandles(GOOD)) == t;
    assert Sent(job, s, ServerHandles(GOOD)) == [];
    Goes(job, fits, at, s, ServerHandles(GOOD));
  }

  lemma ChunkHandled(c: ConState, m: Message, name: string)
    requires IsChunk(m) && c.running && c.open == Some(name) && name in c.disk
    ensures CanHandle(c, m)
    ensures Handle(c, m, GOOD) == (c.(disk := c.disk[name := c.disk[name] + m.Bytes[..m.FileSize]]), [])
  {
  }

  /** The head goes over and is answered. */
  lemma OpenOneFile(job: Job, fits: Message -> bool, at: State -> bool, s: State) returns (t: State)
    requires Kept(job, fits, at) && at(s) && s.pc.Opening? && s.pc.i < |job.files| && AllowsFile(job, s.pc.i, fits)
    requires Quiet(s) && s.server.open == None && s.client.open == None
    ensures at(t) && Quiet(t) && t.client == s.client && t.pc == Reading(s.pc.i, 0)
    ensures var name := job.files[s.pc.i].name;
            t.server.open == Some(name) && name in t.server.disk && t.server.disk[name] == []
  {
    var i := s.pc.i;
    Goes(job, fits, at, s, Open(true));
    var s1 := Apply(job, s, Open(true));
    assert s1 == s.(toServer := [job.Head(i)], pc := WaitHead(i));
    assert Handle(s1.server, job.Head(i), GOOD).1 == [NotifyMsg(job.files[i].name, STATUS_OK, "")];
    t := Answered(job, fits, at, s1, job.Head(i), job.files[i].name);
  }

  /** A complete file's end is answered yes; after the last file, for want of a signature, the handler
      stops. */
  lemma EndHandled(job: Job, c: ConState, i: nat)
    requires i < |job.files| && c.running && c.open == Some(job.files[i].name)
    requires job.files[i].name in c.disk && c.disk[job.files[i].name] == job.files[i].data
    ensures CanHandle(c, job.End(i))
    ensures Handle(c, job.End(i), GOOD)
            == (c.(open := None, running := i + 1 < |job.files|), [NotifyMsg(job.files[i].name, STATUS_OK, "")])
  {
  }

  /** The end goes over and is answered. */
  lemma CloseOneFile(job: Job, fits: Message -> bool, at: State -> bool, s: State) returns (t: State)
    requires Kept(job, fits, at) && at(s) && s.pc.Reading? && s.pc.i < |job.files| && AllowsFile(job, s.pc.i, fits)
    requires Quiet(s) && s.client.open == None && s.server.open == Some(job.files[s.pc.i].name)
    requires var (x, f) := (s.server.disk, job.files[s.pc.i]); f.name in x && x[f.name] == f.data
    ensures at(t) && t.pc == Opening(s.pc.i + 1)
    ensures s.pc.i + 1 < |job.files| ==> Quiet(t) && t.server.open == None && t.client.open == None
  {
    var i := s.pc.i;
    EndGoes(job, fits, at, s);
    EndHandled(job, s.server, i);
    t := Answered(job, fits, at, s.(toServer := [job.End(i)], pc := WaitEnd(i)), job.End(i), job.files[i].name);
  }

  lemma EndGoes(job: Job, fits: Message -> bool, at: State -> bool, s: State)
    requires Kept(job, fits, at) && at(s) && s.pc.Reading? && s.pc.i < |job.files| && fits(job.End(s.pc.i))
    requires s.toServer == [] && s.upServer
    ensures at(s.(toServer := [job.End(s.pc.i)], pc := WaitEnd(s.pc.i)))
  {
    assert Apply(job, s, StopReading) == s.(toServer := [job.End(s.pc.i)], pc := WaitEnd(s.pc.i));
    Goes(job, fits, at, s, StopReading);
  }

  lemma SendOneFile(job: Job, fits: Message -> bool, at: State -> bool, s: State) returns (t: State)
    requires Kept(job, fits, at) && at(s) && s.pc.Opening? && s.pc.i < |job.files| && AllowsFile(job, s.pc.i, fits)
    requires Quiet(s) && s.server.open == None && s.client.open == None
    ensures at(t) && t.pc == Opening(s.pc.i + 1)
    ensures s.pc.i + 1 < |job.files| ==> Quiet(t) && t.server.open == None && t.client.open == None
  {
    var s1 := OpenOneFile(job, fits, at, s);
    var s2 := SendRest(job, fits, at, s1);
    t := CloseOneFile(job, fits, at, s2);
  }

  lemma {:induction false} SendFrom(job: Job, fits: Message -> bool, at: State -> bool, s: State)
    returns (t: State)
    requires Allows(job, fits) && Kept(job, fits, at) && at(s) && s.pc.Opening? && s.pc.i <= |job.files|
    requires s.pc.i < |job.files| ==> Quiet(s) && s.server.open == None && s.client.open == None
    ensures at(t) && t.pc == Returned(false)
    decreases |job.files| - s.pc.i
  {
    if s.pc.i == |job.files| {
      Goes(job, fits, at, s, Finish);
      t := Apply(job, s, Finish);
    } else {
      var s1 := SendOneFile(job, fits, at, s);
      t := SendFrom(job, fits, at, s1);
    }
  }

  /** If heads, ends, chunks of one byte and answers fit, some run without a cut sends nothing else and
      succeeds. */
  lemma SmoothSuccess(job: Job, disk: map<string, seq<byte>>, fits: Message -> bool) returns (run: seq<Action>)
    requires Allows(job, fits)
    ensures SmoothRun(job, disk, run, fits)
    ensures Exec(job, disk, run).Some? && Exec(job, disk, run).value.pc == Returned(false)
  {
    assert SmoothRun(job, disk, [], fits) && Exec(job, disk, []) == Some(Init(job, disk));
    var at := (s: State) => Smoothly(job, disk, fits, s);
    forall s, a | at(s) && Enabled(job, s, a) && Smooth(job, s, a, fits) ensures at(Apply(job, s, a)) {
      SmoothlyOn(job, disk, fits, s, a);
    }
    var t := SendFrom(job, fits, at, Init(job, disk));
    run :| SmoothRun(job, disk, run, fits) && Exec(job, disk, run) == Some(t);
  }

  /** Safety is not empty: every list of files has a run in which sendFile succeeds. */
  lemma SomeRunSucceeds(job: Job, disk: map<string, seq<byte>>)
    ensures exists run :: Exec(job, disk, run).Some? && Exec(job, disk, run).value.pc == Returned(false)
  {
    var run := SmoothSuccess(job, disk, _ => true);
  }
}
