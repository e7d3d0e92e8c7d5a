/** The transfer over bytes: the same goroutines and handlers, but what lies between them is two
    streams of bytes, which can be cut after any byte. A message that does not fit the send buffer
    breaks its connection. Every such run is matched by a run over whole messages. */
module ByteTransfer {
  import opened Wrappers
  import opened Numerals
  import opened Messages
  import opened Handler
  import opened Transfer
  import F = Framing

  /** JSON encoding and decoding. */
  datatype Codec = Codec(enc: Message -> seq<byte>, dec: seq<byte> -> Option<Message>) {
    ghost predicate Valid() { F.LeftInverse(enc, dec) }
  }

  /** `core` has everything but the messages under way, which are in the two streams. */
  datatype Streams = Streams(core: State, toServer: seq<byte>, toClient: seq<byte>)

  function Start(job: Job, disk: map<string, seq<byte>>): Streams {
    Streams(Init(job, disk), [], [])
  }

  /** The first message of a stream and what follows it. */
  function First(stream: seq<byte>, dec: seq<byte> -> Option<Message>): Option<(Message, seq<byte>)> {
    if |stream| < 8 || (stream[..4] != F.HEAD_FILLER && stream[..4] != F.HEAD_FILE) then None
    else
      var n := F.Uint32(stream[4..8]);
      if n > READ_BUFFER || |stream| < 8 + n then None
      else
        var m := dec(stream[8..8 + n]);
        if m == None then None else Some((m.value, stream[8 + n..]))
  }

  lemma BehindMagic(stream: seq<byte>, n: nat)
    requires |stream| >= 8 + n
    ensures stream[4..][4..4 + n] == stream[8..8 + n] && stream[4..][4 + n..] == stream[8 + n..]
  {
    var body := stream[4..];
    var (a, b) := (body[4..4 + n], body[4 + n..]);
    var (x, y) := (stream[8..8 + n], stream[8 + n..]);
    forall i | 0 <= i < |a| ensures a[i] == x[i] {
      assert a[i] == body[4 + i] == stream[8 + i];
    }
    forall i | 0 <= i < |b| ensures b[i] == y[i] {
      assert b[i] == body[4 + n + i] == stream[8 + n + i];
    }
    assert a == x && b == y;
  }

  /** This is how the reading loop goes through a stream. */
  lemma FirstOfParse(stream: seq<byte>, dec: seq<byte> -> Option<Message>)
    ensures F.Parse(stream, false, dec) ==
            match First(stream, dec)
            case None => []
            case Some((m, rest)) => [m] + F.Parse(rest, false, dec)
  {
    if |stream| >= 8 {
      var body := stream[4..];
      assert body[..4] == stream[4..8];
      var n := F.Uint32(body[..4]);
      if |stream| >= 8 + n {
        BehindMagic(stream, n);
      }
    }
  }

  predicate Possible(job: Job, c: Codec, b: Streams, a: Action) {
    match a
    case CutToServer(k) => k <= |b.toServer|
    case CutToClient(k) => k <= |b.toClient|
    case ServerHandles(_) =>
      var f := First(b.toServer, c.dec);
      f.Some? && Enabled(job, b.core.(toServer := [f.value.0]), a)
    case ClientHandles(_) =>
      var f := First(b.toClient, c.dec);
      f.Some? && Enabled(job, b.core.(toClient := [f.value.0]), a)
    case _ => Enabled(job, b.core, a)
  }

  /** Messages just sent go onto the streams, as far as they fit. */
  function Encoded(c: Codec, t: State, toServer: seq<byte>, toClient: seq<byte>): Streams {
    Streams(t.(toServer := [], toClient := [],
               upServer := t.upServer && F.AllFit(c.enc, t.toServer),
               upClient := t.upClient && F.AllFit(c.enc, t.toClient)),
            toServer + F.Stream(c.enc, t.toServer), toClient + F.Stream(c.enc, t.toClient))
  }

  function Do(job: Job, c: Codec, b: Streams, a: Action): Streams
    requires Possible(job, c, b, a)
  {
    match a
    case CutToServer(k) => b.(core := b.core.(upServer := false), toServer := b.toServer[..k])
    case CutToClient(k) => b.(core := b.core.(upClient := false), toClient := b.toClient[..k])
    case ServerHandles(_) =>
      var (m, rest) := First(b.toServer, c.dec).value;
      Encoded(c, Apply(job, b.core.(toServer := [m]), a), rest, b.toClient)
    case ClientHandles(_) =>
      var (m, rest) := First(b.toClient, c.dec).value;
      Encoded(c, Apply(job, b.core.(toClient := [m]), a), b.toServer, rest)
    case _ => Encoded(c, Apply(job, b.core, a), b.toServer, b.toClient)
  }

  function Run(job: Job, c: Codec, disk: map<string, seq<byte>>, run: seq<Action>): Option<Streams> {
    if run == [] then Some(Start(job, disk))
    else
      var before := Run(job, c, disk, run[..|run| - 1]);
      var a := run[|run| - 1];
      if before.Some? && Possible(job, c, before.value, a) then Some(Do(job, c, before.value, a)) else None
  }

  // ----- streams and messages

  /** Part of a frame, from which no message comes. */
  ghost predicate Dangling(c: Codec, tail: seq<byte>) {
    exists m, k: nat :: PartOf(c, m, k, tail)
  }

  ghost predicate PartOf(c: Codec, m: Message, k: nat, tail: seq<byte>) {
    F.Fits(c.enc, m) && k < |F.Frame(c.enc(m))| && tail == F.Frame(c.enc(m))[..k]
  }

  /** The stream holds the frames of these messages, and after a cut perhaps part of one more. */
  ghost predicate Carries(c: Codec, stream: seq<byte>, ms: seq<Message>, up: bool) {
    F.AllFit(c.enc, ms) && exists tail :: CarriesWith(c, stream, ms, up, tail)
  }

  ghost predicate CarriesWith(c: Codec, stream: seq<byte>, ms: seq<Message>, up: bool, tail: seq<byte>) {
    stream == F.Frames(c.enc, ms) + tail && (tail == [] || (!up && Dangling(c, tail)))
  }

  lemma {:induction false} FramesConcat(enc: Message -> seq<byte>, a: seq<Message>, b: seq<Message>)
    ensures F.Frames(enc, a + b) == F.Frames(enc, a) + F.Frames(enc, b)
    decreases |a|
  {
    if a == [] {
      assert a + b == b;
    } else {
      FramesConcat(enc, a[1..], b);
      assert (a + b)[0] == a[0] && (a + b)[1..] == a[1..] + b;
      Regroup(F.Frame(enc(a[0])), F.Frames(enc, a[1..]), F.Frames(enc, b));
    }
  }

  lemma FirstIsNone(c: Codec, tail: seq<byte>)
    requires tail == [] || Dangling(c, tail)
    ensures First(tail, c.dec) == None
  {
    if tail != [] {
      var m, k: nat :| PartOf(c, m, k, tail);
      if k >= 8 {
        var data := c.enc(m);
        F.FrameParts(data, []);
        assert F.Frame(data) + [] == F.Frame(data);
        assert tail[4..8] == F.Frame(data)[4..][..4];
        F.Uint32RoundTrip(|data|);
      }
    }
  }

  lemma FirstOfFrames(c: Codec, m: Message, rest: seq<byte>)
    requires c.Valid() && F.Fits(c.enc, m)
    ensures First(F.Frame(c.enc(m)) + rest, c.dec) == Some((m, rest))
  {
    var data := c.enc(m);
    var stream := F.Frame(data) + rest;
    F.FrameParts(data, rest);
    F.Uint32RoundTrip(|data|);
    assert stream[4..8] == stream[4..][..4];
    assert stream[8..8 + |data|] == stream[4..][4..4 + |data|] && stream[8 + |data|..] == stream[4..][4 + |data|..];
    assert c.dec(c.enc(m)) == Some(m);
  }

  /** The first message of the stream is the first of those it carries. */
  lemma FirstCarried(c: Codec, stream: seq<byte>, ms: seq<Message>, up: bool)
    requires c.Valid() && Carries(c, stream, ms, up)
    ensures First(stream, c.dec).None? <==> ms == []
    ensures ms != [] ==> First(stream, c.dec).value.0 == ms[0] && Carries(c, First(stream, c.dec).value.1, ms[1..], up)
  {
    var tail :| CarriesWith(c, stream, ms, up, tail);
    if ms == [] {
      assert stream == tail;
      FirstIsNone(c, tail);
    } else {
      var rest := F.Frames(c.enc, ms[1..]) + tail;
      assert stream == F.Frame(c.enc(ms[0])) + rest;
      FirstOfFrames(c, ms[0], rest);
      assert CarriesWith(c, rest, ms[1..], up, tail);
    }
  }

  lemma CarriesMore(c: Codec, stream: seq<byte>, ms: seq<Message>, up: bool, more: seq<Message>)
    requires Carries(c, stream, ms, up) && (!up ==> more == [])
    ensures Carries(c, stream + F.Stream(c.enc, more), ms + F.Fitting(c.enc, more), up && F.AllFit(c.enc, more))
  {
    var tail :| CarriesWith(c, stream, ms, up, tail);
    var fit := F.Fitting(c.enc, more);
    FramesConcat(c.enc, ms, fit);
    if up {
      assert stream == F.Frames(c.enc, ms);
      assert stream + F.Frames(c.enc, fit) == F.Frames(c.enc, ms + fit) + [];
      assert CarriesWith(c, stream + F.Stream(c.enc, more), ms + fit, F.AllFit(c.enc, more), []);
    } else {
      assert stream + [] == stream && ms + [] == ms;
    }
  }

  /** A cut after k bytes leaves the messages whose frames are complete. */
  lemma {:induction false} CutCarries(c: Codec, stream: seq<byte>, ms: seq<Message>, up: bool, k: nat)
    requires Carries(c, stream, ms, up) && k <= |stream|
    ensures Carries(c, stream[..k], ms[..F.WholeFrames(c.enc, ms, k)], false)
    decreases |ms|
  {
    var tail :| CarriesWith(c, stream, ms, up, tail);
    if ms == [] {
      assert stream == tail;
      CutTail(c, tail, k);
    } else {
      var f := F.Frame(c.enc(ms[0]));
      var rest := F.Frames(c.enc, ms[1..]) + tail;
      assert stream == f + rest;
      if k < |f| {
        CutFirst(c, ms[0], rest, k);
      } else {
        assert CarriesWith(c, rest, ms[1..], up, tail);
        CutCarries(c, rest, ms[1..], up, k - |f|);
        CutLater(c, ms, rest, k, F.WholeFrames(c.enc, ms[1..], k - |f|));
      }
    }
  }

  lemma CutLater(c: Codec, ms: seq<Message>, rest: seq<byte>, k: nat, n: nat)
    requires ms != [] && F.Fits(c.enc, ms[0]) && n <= |ms| - 1
    requires |F.Frame(c.enc(ms[0]))| <= k <= |F.Frame(c.enc(ms[0]))| + |rest|
    requires Carries(c, rest[..k - |F.Frame(c.enc(ms[0]))|], ms[1..][..n], false)
    ensures Carries(c, (F.Frame(c.enc(ms[0])) + rest)[..k], ms[..n + 1], false)
  {
    var f := F.Frame(c.enc(ms[0]));
    PutInFront(c, ms[0], rest[..k - |f|], ms[1..][..n]);
    assert (f + rest)[..k] == f + rest[..k - |f|] && ms[..n + 1] == [ms[0]] + ms[1..][..n];
  }

  lemma CutFirst(c: Codec, m: Message, rest: seq<byte>, k: nat)
    requires F.Fits(c.enc, m) && k < |F.Frame(c.enc(m))|
    ensures Carries(c, (F.Frame(c.enc(m)) + rest)[..k], [], false)
  {
    var part := (F.Frame(c.enc(m)) + rest)[..k];
    assert part == F.Frame(c.enc(m))[..k] && PartOf(c, m, k, part);
    assert CarriesWith(c, part, [], false, part);
  }

  lemma PutInFront(c: Codec, m: Message, stream: seq<byte>, ms: seq<Message>)
    requires F.Fits(c.enc, m) && Carries(c, stream, ms, false)
    ensures Carries(c, F.Frame(c.enc(m)) + stream, [m] + ms, false)
  {
    var tail :| CarriesWith(c, stream, ms, false, tail);
    assert ([m] + ms)[1..] == ms;
    Regroup(F.Frame(c.enc(m)), F.Frames(c.enc, ms), tail);
    assert CarriesWith(c, F.Frame(c.enc(m)) + stream, [m] + ms, false, tail);
  }

  lemma CutTail(c: Codec, tail: seq<byte>, k: nat)
    requires (tail == [] || Dangling(c, tail)) && k <= |tail|
    ensures Carries(c, tail[..k], [], false)
  {
    if tail != [] {
      var m, n: nat :| PartOf(c, m, n, tail);
      assert PartOf(c, m, k, tail[..k]);
    }
    assert CarriesWith(c, tail[..k], [], false, tail[..k]);
  }

  // ----- the two kinds of runs

  /** The streams carry the messages under way. */
  ghost predicate Matches(c: Codec, b: Streams, s: State) {
    && b.core == s.(toServer := [], toClient := [])
    && Carries(c, b.toServer, s.toServer, s.upServer) && Carries(c, b.toClient, s.toClient, s.upClient)
  }

  /** The messages a step leaves alone: all but the one it handles. */
  function RestToServer(s: State, a: Action): seq<Message>
    requires a.ServerHandles? ==> s.toServer != []
  {
    if a.ServerHandles? then s.toServer[1..] else s.toServer
  }

  function RestToClient(s: State, a: Action): seq<Message>
    requires a.ClientHandles? ==> s.toClient != []
  {
    if a.ClientHandles? then s.toClient[1..] else s.toClient
  }

  /** The state with no message under way but the one the step handles. */
  function Alone(s: State, a: Action): State
    requires (a.ServerHandles? ==> s.toServer != []) && (a.ClientHandles? ==> s.toClient != [])
  {
    s.(toServer := if a.ServerHandles? then [s.toServer[0]] else [],
       toClient := if a.ClientHandles? then [s.toClient[0]] else [])
  }

  /** Messages sent join those under way; a broken connection takes none. */
  ghost predicate Joined(job: Job, s: State, a: Action)
    requires (a.ServerHandles? ==> s.toServer != []) && (a.ClientHandles? ==> s.toClient != [])
    requires Enabled(job, s, a) && Enabled(job, Alone(s, a), a)
  {
    var (t, u) := (Apply(job, s, a), Apply(job, Alone(s, a), a));
    && t == u.(toServer := RestToServer(s, a) + u.toServer, toClient := RestToClient(s, a) + u.toClient)
    && (!s.upServer ==> u.toServer == []) && (!s.upClient ==> u.toClient == [])
    && u.upServer == s.upServer && u.upClient == s.upClient
  }

  lemma SentJoins(job: Job, s: State, a: Action)
    requires !a.CutToServer? && !a.CutToClient?
    requires (a.ServerHandles? ==> s.toServer != []) && (a.ClientHandles? ==> s.toClient != [])
    ensures Enabled(job, s, a) <==> Enabled(job, Alone(s, a), a)
    ensures Enabled(job, s, a) ==> Joined(job, s, a)
  {
    if Enabled(job, s, a) {
      match a
      case ServerHandles(w) => ServerJoins(job, s, w);
      case ClientHandles(w) => ClientJoins(job, s, w);
      case _ => LocalJoins(job, s, a);
    }
  }

  lemma ServerJoins(job: Job, s: State, w: World)
    requires s.toServer != [] && Enabled(job, s, ServerHandles(w))
    ensures Joined(job, s, ServerHandles(w))
  {
    assert [s.toServer[0]][1..] == [] && s.toServer[1..] + [] == s.toServer[1..];
    var replies := Handle(s.server, s.toServer[0], w).1;
    assert [] + replies == replies && s.toClient + [] == s.toClient;
  }

  lemma ClientJoins(job: Job, s: State, w: World)
    requires s.toClient != [] && Enabled(job, s, ClientHandles(w))
    ensures Joined(job, s, ClientHandles(w))
  {
    assert [s.toClient[0]][1..] == [] && s.toClient[1..] + [] == s.toClient[1..];
    var replies := Handle(s.client, s.toClient[0], w).1;
    assert [] + replies == replies && s.toServer + [] == s.toServer;
  }

  lemma LocalJoins(job: Job, s: State, a: Action)
    requires !a.CutToServer? && !a.CutToClient? && !a.ServerHandles? && !a.ClientHandles? && Enabled(job, s, a)
    ensures Enabled(job, Alone(s, a), a) && Joined(job, s, a)
  {
    assert s.toServer + [] == s.toServer && s.toClient + [] == s.toClient;
  }

  /** After the step, messages that did not fit are cut off. */
  lemma CutUnfit(job: Job, c: Codec, disk: map<string, seq<byte>>, t: State,
                 restS: seq<Message>, sentS: seq<Message>, restC: seq<Message>, sentC: seq<Message>) returns (s: State)
    requires Reachable(job, disk, t) && t.toServer == restS + sentS && t.toClient == restC + sentC
    ensures Reachable(job, disk, s)
    ensures s == t.(toServer := restS + F.Fitting(c.enc, sentS), upServer := t.upServer && F.AllFit(c.enc, sentS),
                    toClient := restC + F.Fitting(c.enc, sentC), upClient := t.upClient && F.AllFit(c.enc, sentC))
  {
    s := t;
    if !F.AllFit(c.enc, sentS) {
      var k := |restS| + |F.Fitting(c.enc, sentS)|;
      assert s.toServer[..k] == restS + F.Fitting(c.enc, sentS);
      Then(job, disk, s, CutToServer(k));
      s := Apply(job, s, CutToServer(k));
    }
    if !F.AllFit(c.enc, sentC) {
      var k := |restC| + |F.Fitting(c.enc, sentC)|;
      assert s.toClient[..k] == restC + F.Fitting(c.enc, sentC);
      Then(job, disk, s, CutToClient(k));
      s := Apply(job, s, CutToClient(k));
    }
  }

  lemma StepMatches(job: Job, c: Codec, disk: map<string, seq<byte>>, b: Streams, s: State, a: Action)
    returns (t: State)
    requires c.Valid() && Matches(c, b, s) && Reachable(job, disk, s) && Possible(job, c, b, a)
    ensures Reachable(job, disk, t) && Matches(c, Do(job, c, b, a), t)
  {
    if a.CutToServer? || a.CutToClient? {
      t := CutMatches(job, c, disk, b, s, a);
    } else {
      DoneAlone(job, c, b, s, a);
      SentJoins(job, s, a);
      Then(job, disk, s, a);
      var u := Apply(job, Alone(s, a), a);
      t := CutUnfit(job, c, disk, Apply(job, s, a), RestToServer(s, a), u.toServer, RestToClient(s, a), u.toClient);
      EncodedMatches(c, u, StreamToServer(c, b, a), StreamToClient(c, b, a), RestToServer(s, a), RestToClient(s, a), t);
    }
  }

  function StreamToServer(c: Codec, b: Streams, a: Action): seq<byte>
    requires a.ServerHandles? ==> First(b.toServer, c.dec).Some?
  {
    if a.ServerHandles? then First(b.toServer, c.dec).value.1 else b.toServer
  }

  function StreamToClient(c: Codec, b: Streams, a: Action): seq<byte>
    requires a.ClientHandles? ==> First(b.toClient, c.dec).Some?
  {
    if a.ClientHandles? then First(b.toClient, c.dec).value.1 else b.toClient
  }

  lemma DoneAlone(job: Job, c: Codec, b: Streams, s: State, a: Action)
    requires c.Valid() && Matches(c, b, s) && Possible(job, c, b, a) && !a.CutToServer? && !a.CutToClient?
    ensures (a.ServerHandles? ==> s.toServer != []) && (a.ClientHandles? ==> s.toClient != [])
    ensures Carries(c, StreamToServer(c, b, a), RestToServer(s, a), s.upServer)
    ensures Carries(c, StreamToClient(c, b, a), RestToClient(s, a), s.upClient)
    ensures Enabled(job, Alone(s, a), a)
    ensures Do(job, c, b, a) ==
            Encoded(c, Apply(job, Alone(s, a), a), StreamToServer(c, b, a), StreamToClient(c, b, a))
  {
    if a.ServerHandles? {
      FirstCarried(c, b.toServer, s.toServer, s.upServer);
    }
    if a.ClientHandles? {
      FirstCarried(c, b.toClient, s.toClient, s.upClient);
    }
  }

  lemma EncodedMatches(c: Codec, u: State, streamS: seq<byte>, streamC: seq<byte>,
                       restS: seq<Message>, restC: seq<Message>, t: State)
    requires Carries(c, streamS, restS, u.upServer) && (!u.upServer ==> u.toServer == [])
    requires Carries(c, streamC, restC, u.upClient) && (!u.upClient ==> u.toClient == [])
    requires t == u.(toServer := restS + F.Fitting(c.enc, u.toServer), toClient := restC + F.Fitting(c.enc, u.toClient),
                     upServer := u.upServer && F.AllFit(c.enc, u.toServer),
                     upClient := u.upClient && F.AllFit(c.enc, u.toClient))
    ensures Matches(c, Encoded(c, u, streamS, streamC), t)
  {
    CarriesMore(c, streamS, restS, u.upServer, u.toServer);
    CarriesMore(c, streamC, restC, u.upClient, u.toClient);
  }

  lemma CutMatches(job: Job, c: Codec, disk: map<string, seq<byte>>, b: Streams, s: State, a: Action) returns (t: State)
    requires Matches(c, b, s) && Reachable(job, disk, s) && Possible(job, c, b, a)
    requires a.CutToServer? || a.CutToClient?
    ensures Reachable(job, disk, t) && Matches(c, Do(job, c, b, a), t)
  {
    if a.CutToServer? {
      var n := F.WholeFrames(c.enc, s.toServer, a.k);
      CutCarries(c, b.toServer, s.toServer, s.upServer, a.k);
      Then(job, disk, s, CutToServer(n));
      t := Apply(job, s, CutToServer(n));
    } else {
      var n := F.WholeFrames(c.enc, s.toClient, a.k);
      CutCarries(c, b.toClient, s.toClient, s.upClient, a.k);
      Then(job, disk, s, CutToClient(n));
      t := Apply(job, s, CutToClient(n));
    }
  }

  /** Every run over bytes is matched by one over messages. */
  lemma {:induction false} RunMatches(job: Job, c: Codec, disk: map<string, seq<byte>>, run: seq<Action>)
    returns (s: State)
    requires c.Valid() && Run(job, c, disk, run).Some?
    ensures Reachable(job, disk, s) && Matches(c, Run(job, c, disk, run).value, s)
    decreases |run|
  {
    if run == [] {
      s := Init(job, disk);
      assert Exec(job, disk, []) == Some(s);
      assert CarriesWith(c, [], [], true, []);
    } else {
      var k := |run| - 1;
      var before := RunMatches(job, c, disk, run[..k]);
      s := StepMatches(job, c, disk, Run(job, c, disk, run[..k]).value, before, run[k]);
    }
  }

  /** Transfer safety over bytes: wherever the streams are cut, once sendFile has returned without an
      error the receiver has under every listed name the bytes of the last file listed under it. */
  lemma ByteSafety(job: Job, c: Codec, disk: map<string, seq<byte>>, run: seq<Action>)
    requires c.Valid() && Run(job, c, disk, run).Some? && Run(job, c, disk, run).value.core.pc == Returned(false)
    ensures var got := Run(job, c, disk, run).value.core.server.disk;
            forall x :: x in Merged(job.files) ==> x in got && got[x] == Merged(job.files)[x]
  {
    var s := RunMatches(job, c, disk, run);
    var messages :| Exec(job, disk, messages) == Some(s);
    TransferSafety(job, disk, messages);
  }

  /** And all listed files are there exactly if files of one base name have the same contents. */
  lemma ByteFilesArriveExactly(job: Job, c: Codec, disk: map<string, seq<byte>>, run: seq<Action>)
    requires c.Valid() && Run(job, c, disk, run).Some? && Run(job, c, disk, run).value.core.pc == Returned(false)
    ensures NamesDetermineData(job.files) <==>
            forall f :: f in job.files ==>
              var got := Run(job, c, disk, run).value.core.server.disk; f.name in got && got[f.name] == f.data
  {
    ByteSafety(job, c, disk, run);
    MergedHasAll(job.files);
  }

  // ----- a run over bytes that succeeds

  lemma SentAlone(job: Job, s: State, a: Action, m: Message)
    requires (a.ServerHandles? ==> s.toServer != []) && (a.ClientHandles? ==> s.toClient != [])
    requires Enabled(job, s, a) && Enabled(job, Alone(s, a), a) && !a.CutToServer? && !a.CutToClient?
    ensures var u := Apply(job, Alone(s, a), a); m in u.toServer || m in u.toClient ==> m in Sent(job, s, a)
  {
    match a
    case ServerHandles(w) =>
      assert [s.toServer[0]][1..] == [];
    case ClientHandles(w) =>
      assert [s.toClient[0]][1..] == [];
    case _ =>
  }

  lemma SmoothPossible(job: Job, c: Codec, b: Streams, s: State, a: Action)
    requires c.Valid() && Matches(c, b, s) && Enabled(job, s, a) && !a.CutToServer? && !a.CutToClient?
    ensures Possible(job, c, b, a)
  {
    SentJoins(job, s, a);
    match a
    case ServerHandles(_) =>
      FirstCarried(c, b.toServer, s.toServer, s.upServer);
      assert b.core.(toServer := [s.toServer[0]]) == Alone(s, a);
    case ClientHandles(_) =>
      FirstCarried(c, b.toClient, s.toClient, s.upClient);
      assert b.core.(toClient := [s.toClient[0]]) == Alone(s, a);
    case _ =>
  }

  /** A step that sends only what fits is a step over bytes as well. */
  lemma SmoothStep(job: Job, c: Codec, b: Streams, s: State, a: Action)
    requires c.Valid() && Matches(c, b, s) && Enabled(job, s, a) && Smooth(job, s, a, m => F.Fits(c.enc, m))
    ensures Possible(job, c, b, a) && Matches(c, Do(job, c, b, a), Apply(job, s, a))
  {
    SmoothPossible(job, c, b, s, a);
    DoneAlone(job, c, b, s, a);
    SentJoins(job, s, a);
    var u := Apply(job, Alone(s, a), a);
    AllSentFit(job, c, s, a);
    EncodedMatches(c, u, StreamToServer(c, b, a), StreamToClient(c, b, a), RestToServer(s, a), RestToClient(s, a),
                   Apply(job, s, a));
  }

  lemma AllSentFit(job: Job, c: Codec, s: State, a: Action)
    requires (a.ServerHandles? ==> s.toServer != []) && (a.ClientHandles? ==> s.toClient != [])
    requires Enabled(job, s, a) && Enabled(job, Alone(s, a), a) && Smooth(job, s, a, m => F.Fits(c.enc, m))
    ensures var u := Apply(job, Alone(s, a), a); F.AllFit(c.enc, u.toServer) && F.AllFit(c.enc, u.toClient)
  {
    var u := Apply(job, Alone(s, a), a);
    forall m | m in u.toServer || m in u.toClient ensures F.Fits(c.enc, m) {
      SentAlone(job, s, a, m);
    }
  }

  lemma {:induction false} SmoothRunMatches(job: Job, c: Codec, disk: map<string, seq<byte>>, run: seq<Action>)
    requires c.Valid() && SmoothRun(job, disk, run, m => F.Fits(c.enc, m)) && Exec(job, disk, run).Some?
    ensures Run(job, c, disk, run).Some? && Matches(c, Run(job, c, disk, run).value, Exec(job, disk, run).value)
    decreases |run|
  {
    if run == [] {
      assert CarriesWith(c, [], [], true, []);
    } else {
      var k := |run| - 1;
      SmoothRunMatches(job, c, disk, run[..k]);
      SmoothStep(job, c, Run(job, c, disk, run[..k]).value, Exec(job, disk, run[..k]).value, run[k]);
    }
  }

  /** Safety over bytes is not empty either: whenever heads, ends, chunks of one byte and the answers fit
      when encoded, some run succeeds. */
  lemma SomeByteRunSucceeds(job: Job, c: Codec, disk: map<string, seq<byte>>)
    requires c.Valid() && Allows(job, m => F.Fits(c.enc, m))
    ensures exists run :: Run(job, c, disk, run).Some? && Run(job, c, disk, run).value.core.pc == Returned(false)
  {
    var run := SmoothSuccess(job, disk, m => F.Fits(c.enc, m));
    SmoothRunMatches(job, c, disk, run);
  }
}
