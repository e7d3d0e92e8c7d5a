/** The message handler of a connection, the same for both ends. */
module Handler {
  import opened Wrappers
  import opened Numerals
  import opened Messages

  /** What looking up a file comes to; without a connection to the chain it panics. */
  datatype FileState = StateError | StateActive | StateOther | StatePanics

  /** What the world outside decides while one message is handled. */
  datatype World = World(
    signOk: bool,        // VerifySign succeeds
    fileState: FileState, // what the chain says about the file
    openOk: bool,
    written: Option<nat>, // Some(k): the write fails after k bytes
    statOk: bool,
    spare: nat,          // capacity of the received bytes beyond their length
    cached: seq<byte>)   // the cached status of the file asked for

  /** `open` is the file the handler has open, `waitNotify` the one-slot channel to the
      sending goroutine, closed together with the handler. */
  datatype ConState = ConState(
    running: bool, open: Option<string>, disk: map<string, seq<byte>>, waitNotify: seq<bool>,
    backups: seq<(string, nat)>)

  /** Receiving a notification blocks while the previous one has not been taken. */
  predicate CanHandle(c: ConState, m: Message) {
    && c.running && (m.MsgType == MsgNotify && m.Bytes != [] ==> c.waitNotify == [])
    && (c.open.Some? ==> c.open.value in c.disk)
  }

  function ZeroPadded(bs: seq<byte>, n: nat): (r: seq<byte>)
    ensures |r| == n
    ensures n <= |bs| ==> r == bs[..n]
  {
    if n <= |bs| then bs[..n] else bs + seq<byte>(n - |bs|, _ => 0)
  }

  function OnHead(c: ConState, m: Message, w: World): (ConState, seq<Message>) {
    if w.signOk && w.fileState == StatePanics then (c.(running := false), [])
    else if !w.signOk || w.fileState != StateOther then (c.(running := false), [NotifyMsg("", STATUS_ERR, "")])
    else if !w.openOk then (c.(running := false, open := None), [NotifyMsg("", STATUS_ERR, "")])
    else (c.(open := Some(m.FileName), disk := c.disk[m.FileName := []]), [NotifyMsg(m.FileName, STATUS_OK, "")])
  }

  function OnFile(c: ConState, m: Message, w: World): (ConState, seq<Message>)
    requires c.open.Some? ==> c.open.value in c.disk
  {
    if c.open == None then (c.(running := false), [CloseMsg(STATUS_ERR)])
    else if m.FileSize > |m.Bytes| + w.spare then (c.(running := false), []) // slice bounds: panic
    else
      var name, chunk := c.open.value, ZeroPadded(m.Bytes, m.FileSize);
      match w.written
      case None => (c.(disk := c.disk[name := c.disk[name] + chunk]), [])
      case Some(k) =>
        (c.(running := false, disk := c.disk[name := c.disk[name] + (if k < |chunk| then chunk[..k] else chunk)]),
         [CloseMsg(STATUS_ERR)])
  }

  function OnEnd(c: ConState, m: Message, w: World): (ConState, seq<Message>)
    requires c.open.Some? ==> c.open.value in c.disk
  {
    if c.open == None || !w.statOk || |c.disk[c.open.value]| != m.FileSize
    then (c.(running := false), [NotifyMsg("", STATUS_ERR, "")])
    else
      var closed := c.(open := None);
      var ack := [NotifyMsg(c.open.value, STATUS_OK, "")];
      if !m.LastMark then (closed, ack)
      else if |m.SignMsg| < 8 then (closed.(running := false), ack) // Uint64 of a short slice: panic
      else (closed.(backups := c.backups + [(m.FileHash, SetBytes(m.SignMsg[..8]))]), ack)
  }

  /** One message: the new state and the messages sent in reply. */
  function Handle(c: ConState, m: Message, w: World): (ConState, seq<Message>)
    requires CanHandle(c, m)
  {
    match m.MsgType
    case MsgHead => OnHead(c, m, w)
    case MsgFileSt => (c, [FileStMsg(m.FileHash, w.cached), NotifyMsg("", STATUS_OK, "")])
    case MsgFile => OnFile(c, m, w)
    case MsgEnd => OnEnd(c, m, w)
    case MsgNotify =>
      if m.Bytes == [] then (c.(running := false), [])
      else (c.(waitNotify := c.waitNotify + [m.Bytes[0] == STATUS_OK]), [])
    case MsgVersion => (c, [VersionMsg(VERSION)])
    case _ => (c.(running := false), [])
  }

  // ----- what handling a message means

  /** Only the file named by a head and the open file can change: the one is made empty, the other
      extended by no more than the announced bytes, all of them unless the handler stops. */
  lemma DiskFrame(c: ConState, m: Message, w: World)
    requires CanHandle(c, m)
    ensures var d := Handle(c, m, w).0;
            && (forall x :: x in c.disk && x != m.FileName && Some(x) != c.open ==>
                  x in d.disk && d.disk[x] == c.disk[x])
            && (m.MsgType != MsgHead && m.MsgType != MsgFile ==> d.disk == c.disk)
            && (m.MsgType == MsgHead && d.running ==> d.open == Some(m.FileName) && d.disk == c.disk[m.FileName := []])
            && (m.MsgType == MsgFile && c.open.Some? ==>
                  && d.open == c.open && c.disk[c.open.value] <= d.disk[c.open.value]
                  && d.disk[c.open.value] <= c.disk[c.open.value] + ZeroPadded(m.Bytes, m.FileSize)
                  && (d.running ==> d.disk[c.open.value] == c.disk[c.open.value] + ZeroPadded(m.Bytes, m.FileSize)))
  {
  }

  /** The handler stops exactly at a close or a message that is not for it, at a notification without a
      status, and if handling a head, a chunk or an end fails. */
  lemma StopsExactly(c: ConState, m: Message, w: World)
    requires CanHandle(c, m)
    ensures !Handle(c, m, w).0.running <==>
              || m.MsgType in {MsgInvalid, MsgClose, MsgRecvHead, MsgRecvFile}
              || (m.MsgType == MsgNotify && m.Bytes == [])
              || (m.MsgType == MsgHead && !(w.signOk && w.fileState == StateOther && w.openOk))
              || (m.MsgType == MsgFile && (c.open == None || m.FileSize > |m.Bytes| + w.spare || w.written.Some?))
              || (m.MsgType == MsgEnd &&
                   (c.open == None || !w.statOk || |c.disk[c.open.value]| != m.FileSize ||
                    (m.LastMark && |m.SignMsg| < 8)))
  {
  }

  /** An answer with this status, for a file or for none. */
  predicate IsNotify(m: Message, status: byte, fileName: string) {
    m.MsgType == MsgNotify && m.Bytes == [status] && m.FileName == fileName
  }

  /** What is sent in reply to each message: to a request for a file's status the status cached for it and
      a yes, to one for the version the version; a close, a notification and a message that is not for the
      handler are not answered, and neither is a chunk unless it cannot be stored. */
  lemma RepliesExactly(c: ConState, m: Message, w: World)
    requires CanHandle(c, m)
    ensures var (d, replies) := Handle(c, m, w);
            match m.MsgType
            case MsgHead =>
              if w.signOk && w.fileState == StatePanics then replies == []
              else |replies| == 1 && if d.running then IsNotify(replies[0], STATUS_OK, m.FileName)
                                     else IsNotify(replies[0], STATUS_ERR, "")
            case MsgFileSt =>
              && d == c && |replies| == 2 && IsNotify(replies[1], STATUS_OK, "")
              && replies[0].MsgType == MsgFileSt && replies[0].FileHash == m.FileHash
              && replies[0].Bytes == w.cached && replies[0].FileSize == |w.cached|
            case MsgFile =>
              if d.running || (c.open.Some? && m.FileSize > |m.Bytes| + w.spare) then replies == []
              else |replies| == 1 && replies[0].MsgType == MsgClose && replies[0].Bytes == [STATUS_ERR]
            case MsgEnd =>
              && |replies| == 1
              && if c.open.Some? && w.statOk && |c.disk[c.open.value]| == m.FileSize
                 then IsNotify(replies[0], STATUS_OK, c.open.value) else IsNotify(replies[0], STATUS_ERR, "")
            case MsgVersion =>
              && d == c && |replies| == 1
              && replies[0].MsgType == MsgVersion && replies[0].FileName == VERSION && replies[0].Bytes == [STATUS_OK]
            case _ => replies == []
  {
  }

  /** A notification is handed on as whether it says yes, into a slot that never holds two, and changes
      nothing else; a close and a message that is not for the handler change nothing but that it stops. */
  lemma HandsOnExactly(c: ConState, m: Message, w: World)
    requires CanHandle(c, m)
    ensures var d := Handle(c, m, w).0;
            && (m.MsgType == MsgNotify && m.Bytes != [] ==>
                  d == c.(waitNotify := d.waitNotify) && d.waitNotify == c.waitNotify + [m.Bytes[0] == 0])
            && (m.MsgType != MsgNotify ==> d.waitNotify == c.waitNotify)
            && (|c.waitNotify| <= 1 ==> |d.waitNotify| <= 1)
            && (m.MsgType in {MsgInvalid, MsgClose, MsgRecvHead, MsgRecvFile} ==> d == c.(running := false))
  {
  }

  /** A backup starts exactly at the end of a last file that is open and has the announced size, if the
      message brings at least eight signature bytes. */
  lemma BackupStartsExactly(c: ConState, m: Message, w: World)
    requires CanHandle(c, m)
    ensures var starts :=
              && m.MsgType == MsgEnd && c.open.Some? && w.statOk && |c.disk[c.open.value]| == m.FileSize
              && m.LastMark && |m.SignMsg| >= 8;
            Handle(c, m, w).0.backups == c.backups + if starts then [(m.FileHash, SetBytes(m.SignMsg[..8]))] else []
  {
  }

  /** The messages of a session, each with its world, until the handler stops or blocks. */
  function Session(c: ConState, ms: seq<Message>, ws: nat -> World, i: nat): (ConState, seq<Message>)
    requires i <= |ms|
    decreases |ms| - i
  {
    if i == |ms| || !CanHandle(c, ms[i]) then (c, [])
    else
      var (d, replies) := Handle(c, ms[i], ws(i));
      var (e, more) := Session(d, ms, ws, i + 1);
      (e, replies + more)
  }

  /** What the handler stops at, a close for one, is the last of a session that matters: messages behind it
      change nothing and are not answered. */
  lemma {:induction false} NothingAfterStop(c: ConState, ms: seq<Message>, ws: nat -> World, i: nat, k: nat)
    requires i <= k < |ms| && ms[k].MsgType in {MsgInvalid, MsgClose, MsgRecvHead, MsgRecvFile}
    ensures Session(c, ms, ws, i) == Session(c, ms[..k + 1], ws, i)
    ensures Session(c, ms, ws, i).1 == Session(c, ms[..k], ws, i).1
    ensures Session(c, ms, ws, i).0.(running := false) == Session(c, ms[..k], ws, i).0.(running := false)
    ensures Handles(c, ms, ws, i, k) && CanHandle(After(c, ms, ws, i, k), ms[k]) ==>
              Session(c, ms, ws, i).0 == After(c, ms, ws, i, k).(running := false)
    decreases k - i
  {
    if CanHandle(c, ms[i]) {
      var d := Handle(c, ms[i], ws(i)).0;
      StopsExactly(c, ms[i], ws(i));
      HandsOnExactly(c, ms[i], ws(i));
      RepliesExactly(c, ms[i], ws(i));
      if i < k {
        NothingAfterStop(d, ms, ws, i + 1, k);
      }
    }
  }

  lemma SessionStep(c: ConState, ms: seq<Message>, ws: nat -> World, i: nat, sent: seq<Message>)
    requires i < |ms| && CanHandle(c, ms[i])
    ensures var (d, replies) := Handle(c, ms[i], ws(i));
            && Session(c, ms, ws, i).0 == Session(d, ms, ws, i + 1).0
            && sent + Session(c, ms, ws, i).1 == (sent + replies) + Session(d, ms, ws, i + 1).1
  {
    var (d, replies) := Handle(c, ms[i], ws(i));
    Regroup(sent, replies, Session(d, ms, ws, i + 1).1);
  }

  lemma Regroup<T>(x: seq<T>, y: seq<T>, z: seq<T>)
    ensures x + (y + z) == (x + y) + z
  {
  }

  /** The handler gets through messages i to j and is still running. */
  predicate Handles(c: ConState, ms: seq<Message>, ws: nat -> World, i: nat, j: nat)
    requires i <= j <= |ms|
    decreases j - i
  {
    c.running && (i == j || (CanHandle(c, ms[i]) && Handles(Handle(c, ms[i], ws(i)).0, ms, ws, i + 1, j)))
  }

  /** The bytes of the chunks received since the last head, after those there were before. */
  function Received(bytes: seq<byte>, ms: seq<Message>): seq<byte>
    decreases |ms|
  {
    if ms == [] then bytes
    else
      var m := ms[0];
      Received(if m.MsgType == MsgHead then []
               else if m.MsgType == MsgFile then bytes + ZeroPadded(m.Bytes, m.FileSize) else bytes, ms[1..])
  }

  function Content(c: ConState): seq<byte> {
    if c.open.Some? && c.open.value in c.disk then c.disk[c.open.value] else []
  }

  /** The state after messages i to j. */
  function After(c: ConState, ms: seq<Message>, ws: nat -> World, i: nat, j: nat): ConState
    requires i <= j <= |ms| && Handles(c, ms, ws, i, j)
    decreases j - i
  {
    if i == j then c else After(Handle(c, ms[i], ws(i)).0, ms, ws, i + 1, j)
  }

  /** A session that gets through all its messages ends in the state after them. */
  lemma {:induction false} SessionIsAfter(c: ConState, ms: seq<Message>, ws: nat -> World, i: nat)
    requires i <= |ms| && Handles(c, ms, ws, i, |ms|)
    ensures Session(c, ms, ws, i).0 == After(c, ms, ws, i, |ms|)
    decreases |ms| - i
  {
    if i < |ms| {
      SessionIsAfter(Handle(c, ms[i], ws(i)).0, ms, ws, i + 1);
    }
  }

  /** Whatever messages come in whatever order: while the handler runs and has a file open, the file
      holds exactly the bytes announced by the chunks since its head. */
  lemma {:induction false} StoredIsReceived(c: ConState, ms: seq<Message>, ws: nat -> World, i: nat, j: nat)
    requires i <= j <= |ms| && Handles(c, ms, ws, i, j)
    ensures var d := After(c, ms, ws, i, j);
            d.open.Some? && d.open.value in d.disk ==> Content(d) == Received(Content(c), ms[i..j])
    decreases j - i
  {
    if i < j {
      var d := Handle(c, ms[i], ws(i)).0;
      StoredIsReceived(d, ms, ws, i + 1, j);
      assert ms[i..j][0] == ms[i] && ms[i..j][1..] == ms[i + 1..j];
      if ms[i].MsgType == MsgEnd {
        EndForgets(d, ms, ws, i + 1, j, Content(c));
      }
    }
  }

  /** After the end of a file what was received before does not matter any more. */
  lemma {:induction false} EndForgets(c: ConState, ms: seq<Message>, ws: nat -> World, i: nat, j: nat,
                                      before: seq<byte>)
    requires i <= j <= |ms| && Handles(c, ms, ws, i, j) && c.open == None
    ensures After(c, ms, ws, i, j).open.Some? ==> Received(before, ms[i..j]) == Received([], ms[i..j])
    decreases j - i
  {
    if i < j {
      assert ms[i..j][0] == ms[i] && ms[i..j][1..] == ms[i + 1..j];
      if ms[i].MsgType != MsgHead {
        EndForgets(Handle(c, ms[i], ws(i)).0, ms, ws, i + 1, j, before);
      }
    }
  }

  /** The end of a file is answered yes exactly if a file is open and the chunks since its head come to
      the announced size. */
  lemma EndAnsweredExactly(ms: seq<Message>, ws: nat -> World, disk: map<string, seq<byte>>, m: Message, w: World)
    requires Handles(Fresh(disk), ms, ws, 0, |ms|)
    requires m.MsgType == MsgEnd && CanHandle(After(Fresh(disk), ms, ws, 0, |ms|), m)
    ensures var d := After(Fresh(disk), ms, ws, 0, |ms|);
            Handle(d, m, w).1 == [NotifyMsg(if d.open.Some? then d.open.value else "", STATUS_OK, "")] <==>
              d.open.Some? && w.statOk && |Received([], ms)| == m.FileSize
  {
    StoredIsReceived(Fresh(disk), ms, ws, 0, |ms|);
    assert ms[0..|ms|] == ms;
  }

  function Fresh(disk: map<string, seq<byte>>): ConState {
    ConState(true, None, disk, [], [])
  }

  /** The connection manager as the program keeps it. */
  class ConMgr {
    var running: bool
    var fs: Option<string>
    var fileName: string
    var disk: map<string, seq<byte>>
    var waitNotify: seq<bool>
    var backups: seq<(string, nat)>
    var sent: seq<Message>

    ghost function State(): ConState
      reads this
    {
      ConState(running, fs, disk, waitNotify, backups)
    }

    /** While a file is open its name is the connection's file name. */
    ghost predicate Valid()
      reads this
    {
      fs.Some? ==> fs.value in disk && fileName == fs.value
    }

    constructor (disk: map<string, seq<byte>>)
      ensures Valid() && sent == [] && State() == Fresh(disk)
    {
      running, fs, fileName, this.disk, waitNotify, backups, sent := true, None, "", disk, [], [], [];
    }

    /** The message loop. It ends when the handler stops, or waits for ever to hand on a notification. */
    method Run(ms: seq<Message>, ws: nat -> World)
      requires running && Valid()
      modifies this
      ensures running ==> Valid()
      ensures State() == Session(old(State()), ms, ws, 0).0
      ensures Handles(old(State()), ms, ws, 0, |ms|) ==> State() == After(old(State()), ms, ws, 0, |ms|)
      ensures sent == old(sent) + Session(old(State()), ms, ws, 0).1
    {
      var i := 0;
      while i < |ms| && running && !(ms[i].MsgType == MsgNotify && ms[i].Bytes != [] && waitNotify != [])
        invariant 0 <= i <= |ms| && (running ==> Valid())
        invariant Session(old(State()), ms, ws, 0).0 == Session(State(), ms, ws, i).0
        invariant old(sent) + Session(old(State()), ms, ws, 0).1 == sent + Session(State(), ms, ws, i).1
      {
        SessionStep(State(), ms, ws, i, sent);
        HandleMsg(ms[i], ws(i));
        i := i + 1;
      }
      if Handles(old(State()), ms, ws, 0, |ms|) {
        SessionIsAfter(old(State()), ms, ws, 0);
      }
    }

    method Fail(reply: seq<Message>)
      modifies this
      ensures sent == old(sent) + reply && State() == old(State()).(running := false) && fileName == old(fileName)
    {
      sent := sent + reply;
      running := false;
    }

    /** The switch over message types, one method for each of the three long cases. */
    method HandleMsg(m: Message, w: World)
      requires Valid() && CanHandle(State(), m)
      modifies this
      ensures running ==> Valid()
      ensures State() == Handle(old(State()), m, w).0
      ensures sent == old(sent) + Handle(old(State()), m, w).1
    {
      match m.MsgType {
        case MsgHead =>
          HandleHead(m, w);
        case MsgFileSt =>
          sent := sent + [FileStMsg(m.FileHash, w.cached), NotifyMsg("", STATUS_OK, "")];
        case MsgFile =>
          HandleFile(m, w);
        case MsgEnd =>
          HandleEnd(m, w);
        case MsgNotify =>
          if m.Bytes == [] {
            Fail([]);
            return;
          }
          waitNotify := waitNotify + [m.Bytes[0] == STATUS_OK];
        case MsgVersion =>
          sent := sent + [VersionMsg(VERSION)];
        case _ =>
          Fail([]);
      }
    }

    /** The handler goes on exactly if signature, state and file are in order, and then the file is open
        and empty and the answer yes; otherwise the disk stays, and the answer is no, or missing. Only a
        failed attempt to open the file makes the handler forget the one it had open. */
    method HandleHead(m: Message, w: World)
      requires running && Valid()
      modifies this
      ensures State() == OnHead(old(State()), m, w).0 && sent == old(sent) + OnHead(old(State()), m, w).1
      ensures running <==> w.signOk && w.fileState == StateOther && w.openOk
      ensures running ==> Valid() && fs == Some(m.FileName) && disk == old(disk)[m.FileName := []]
      ensures running ==> sent == old(sent) + [NotifyMsg(m.FileName, STATUS_OK, "")]
      ensures !running ==>
                && fs == (if w.signOk && w.fileState == StateOther then None else old(fs)) && disk == old(disk)
                && sent == old(sent) + if w.signOk && w.fileState == StatePanics then []
                                       else [NotifyMsg("", STATUS_ERR, "")]
      ensures waitNotify == old(waitNotify) && backups == old(backups)
    {
      if !w.signOk {
        Fail([NotifyMsg("", STATUS_ERR, "")]);
        return;
      }
      if w.fileState == StatePanics {
        Fail([]);
        return;
      }
      if w.fileState == StateError {
        Fail([NotifyMsg("", STATUS_ERR, "")]);
        return;
      }
      if w.fileState == StateActive {
        Fail([NotifyMsg("", STATUS_ERR, "")]);
        return;
      }
      fileName := m.FileName;
      if !w.openOk {
        fs := None;
        Fail([NotifyMsg("", STATUS_ERR, "")]);
        return;
      }
      fs, disk := Some(m.FileName), disk[m.FileName := []];
      sent := sent + [NotifyMsg(fileName, STATUS_OK, "")];
    }

    /** The handler goes on exactly if a file is open, the announced size is within the slice, and the
        write succeeds. The file gets all announced bytes, or those written before the error. */
    method HandleFile(m: Message, w: World)
      requires running && Valid()
      modifies this
      ensures State() == OnFile(old(State()), m, w).0 && sent == old(sent) + OnFile(old(State()), m, w).1
      ensures running <==> fs.Some? && m.FileSize <= |m.Bytes| + w.spare && w.written.None?
      ensures Valid() && fs == old(fs)
      ensures fs.Some? && m.FileSize <= |m.Bytes| + w.spare ==>
                var k := if w.written.Some? && w.written.value < m.FileSize then w.written.value else m.FileSize;
                disk == old(disk)[fs.value := old(disk)[fs.value] + ZeroPadded(m.Bytes, m.FileSize)[..k]]
      ensures fs == None || m.FileSize > |m.Bytes| + w.spare ==> disk == old(disk)
      ensures sent == old(sent) + if running || (fs.Some? && m.FileSize > |m.Bytes| + w.spare) then []
                                  else [CloseMsg(STATUS_ERR)]
      ensures waitNotify == old(waitNotify) && backups == old(backups)
    {
      if fs == None {
        Fail([CloseMsg(STATUS_ERR)]);
        return;
      }
      if m.FileSize > |m.Bytes| + w.spare {
        Fail([]);
        return;
      }
      var chunk := ZeroPadded(m.Bytes, m.FileSize);
      assert chunk[..m.FileSize] == chunk;
      if w.written.Some? {
        var k := w.written.value;
        disk := disk[fs.value := disk[fs.value] + if k < |chunk| then chunk[..k] else chunk];
        Fail([CloseMsg(STATUS_ERR)]);
        return;
      }
      disk := disk[fs.value := disk[fs.value] + chunk];
    }

    /** The answer is yes exactly if a file is open and its size is the announced one; it is then closed.
        A last file's end without eight signature bytes stops the handler after the answer. */
    method HandleEnd(m: Message, w: World)
      requires running && Valid()
      modifies this
      ensures State() == OnEnd(old(State()), m, w).0 && sent == old(sent) + OnEnd(old(State()), m, w).1
      ensures var complete := old(fs).Some? && w.statOk && |old(disk)[old(fs).value]| == m.FileSize;
              && (fs == if complete then None else old(fs))
              && (running <==> complete && (m.LastMark ==> |m.SignMsg| >= 8))
              && sent == old(sent) + [if complete then NotifyMsg(old(fs).value, STATUS_OK, "")
                                      else NotifyMsg("", STATUS_ERR, "")]
              && backups == old(backups) +
                 if complete && m.LastMark && |m.SignMsg| >= 8 then [(m.FileHash, SetBytes(m.SignMsg[..8]))] else []
      ensures disk == old(disk) && waitNotify == old(waitNotify) && Valid()
    {
      if fs == None || !w.statOk {
        Fail([NotifyMsg("", STATUS_ERR, "")]);
        return;
      }
      if |disk[fs.value]| != m.FileSize {
        Fail([NotifyMsg("", STATUS_ERR, "")]);
        return;
      }
      sent := sent + [NotifyMsg(fileName, STATUS_OK, "")];
      fs := None;
      if m.LastMark {
        if |m.SignMsg| < 8 {
          Fail([]);
          return;
        }
        backups := backups + [(m.FileHash, SetBytes(m.SignMsg[..8]))];
      }
    }
  }
}
