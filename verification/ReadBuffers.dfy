/** The third pool, of buffers for reading. The loops of a connection take one each for the frames
    they write and read, and each message received starts out with one as its bytes. How the frame
    spells its `bytes` field decides what becomes of that buffer: text, null and an empty list replace
    it by a slice of the message's own; without the field, or with a list of numbers, it is kept, old
    contents and all, and a list also changes its length. Kept buffers come back to the pool. */
module ReadBuffers {
  import opened Wrappers
  import opened Numerals
  import opened Messages
  import opened Handler
  import F = Framing

  /** A way to spell the field: base64 text, with the capacity its slice has to spare, or null, or a list
      of numbers and nulls, with the spare capacity in case it outgrows the slice it is decoded into. */
  datatype Form = Text(bytes: seq<byte>, spare: nat) | Null | List(elems: seq<Option<byte>>, room: nat)

  /** A message: every occurrence of the field, the announced size, and whether it is a file message,
      which are written to the disk. */
  datatype Frame = Frame(forms: seq<Form>, size: nat, file: bool)

  /** A list fits into a frame if the frame has room for its elements and their commas. */
  predicate Fits(f: Frame) {
    forall k :: 0 <= k < |f.forms| && f.forms[k].List? ==> 2 * |f.forms[k].elems| < READ_BUFFER
  }

  /** A slice up to its capacity, with its length; `pooled` while it is the recycled buffer. */
  datatype Slice = Slice(pooled: bool, arr: seq<byte>, len: nat)

  function Zeros(n: nat): (zs: seq<byte>)
    ensures |zs| == n
  {
    seq<byte>(n, _ => 0)
  }

  /** A list is decoded in place: null leaves an element as it is. */
  function Spread(arr: seq<byte>, elems: seq<Option<byte>>): (r: seq<byte>)
    requires |elems| <= |arr|
    ensures |r| == |arr|
    ensures forall i :: 0 <= i < |r| ==> r[i] == if i < |elems| && elems[i].Some? then elems[i].value else arr[i]
  {
    seq<byte>(|arr|, i requires 0 <= i < |arr| => if i < |elems| && elems[i].Some? then elems[i].value else arr[i])
  }

  function DecodeForm(s: Slice, form: Form): Slice {
    match form
    case Text(bytes, spare) => Slice(false, bytes + Zeros(spare), |bytes|)
    case Null => Slice(false, [], 0)
    case List(elems, room) =>
      if elems == [] then Slice(false, [], 0)
      else if |elems| <= |s.arr| then Slice(s.pooled, Spread(s.arr, elems), |elems|)
      else Slice(false, Spread(s.arr + Zeros(|elems| - |s.arr| + room), elems), |elems|)
  }

  function Decode(s: Slice, forms: seq<Form>): Slice {
    if forms == [] then s else DecodeForm(Decode(s, forms[..|forms| - 1]), forms[|forms| - 1])
  }

  /** A buffer: all its bytes, and the length of the slice that refers to it. */
  datatype Buffer = Buffer(arr: seq<byte>, len: nat)

  /** The slice of a message that started out with this buffer. */
  function Decoded(f: Frame, stale: Buffer): Slice {
    Decode(Slice(true, stale.arr, stale.len), f.forms)
  }

  /** What the handler writes for a file message, given what the recycled buffer held. None is a panic. */
  function Wanted(f: Frame, stale: Buffer): Option<seq<byte>> {
    var arr := Decoded(f, stale).arr;
    if f.size <= |arr| then Some(arr[..f.size]) else None
  }

  // ----- which frames show old contents

  const FRESH := Buffer(Zeros(READ_BUFFER), READ_BUFFER)

  /** The buffer has all its bytes, whatever the length of the slice. */
  predicate Full(b: Buffer) {
    |b.arr| == READ_BUFFER
  }

  /** No occurrence of the field replaces the recycled buffer. */
  predicate KeepsBuffer(forms: seq<Form>) {
    forall k :: 0 <= k < |forms| ==> forms[k].List? && forms[k].elems != []
  }

  /** Some list has a number for byte i. */
  ghost predicate Covers(forms: seq<Form>, i: nat) {
    exists k :: 0 <= k < |forms| && forms[k].List? && i < |forms[k].elems| && forms[k].elems[i].Some?
  }

  /** A caller can tell from the frame that old contents do not matter: the buffer is replaced, or all
      that is written comes from lists, or nothing is written. */
  ghost predicate Fixed(f: Frame) {
    !KeepsBuffer(f.forms) || f.size > READ_BUFFER || forall i :: 0 <= i < f.size ==> Covers(f.forms, i)
  }

  lemma {:induction false} Replaced(forms: seq<Form>, a: Slice, b: Slice)
    requires !KeepsBuffer(forms)
    ensures Decode(a, forms) == Decode(b, forms) && !Decode(a, forms).pooled
    decreases |forms|
  {
    var k := |forms| - 1;
    if forms[k].List? && forms[k].elems != [] {
      Replaced(forms[..k], a, b);
    }
  }

  lemma CoversFront(forms: seq<Form>, i: nat)
    requires forms != []
    ensures var (front, last) := (forms[..|forms| - 1], forms[|forms| - 1]);
            Covers(forms, i) <==> Covers(front, i) || (last.List? && i < |last.elems| && last.elems[i].Some?)
  {
    var front := forms[..|forms| - 1];
    if k :| 0 <= k < |front| && front[k].List? && i < |front[k].elems| && front[k].elems[i].Some? {
      assert forms[k] == front[k];
    }
    if k :| 0 <= k < |forms| - 1 && forms[k].List? && i < |forms[k].elems| && forms[k].elems[i].Some? {
      assert front[k] == forms[k];
    }
  }

  /** A kept buffer shows its old contents just where no list has a number. */
  lemma {:induction false} KeptShows(f: Frame, a: Buffer, b: Buffer, i: nat)
    requires Fits(f) && KeepsBuffer(f.forms) && Full(a) && Full(b) && i < READ_BUFFER
    ensures var (x, y) := (Decoded(f, a), Decoded(f, b));
            && x.pooled && |x.arr| == READ_BUFFER && y.pooled && |y.arr| == READ_BUFFER
            && (if Covers(f.forms, i) then x.arr[i] == y.arr[i] else x.arr[i] == a.arr[i])
            && x.len == if f.forms == [] then a.len else |f.forms[|f.forms| - 1].elems|
    decreases |f.forms|
  {
    if f.forms != [] {
      KeptShows(f.(forms := f.forms[..|f.forms| - 1]), a, b, i);
      CoversFront(f.forms, i);
    }
  }

  /** What is written for a frame does not depend on what a recycled buffer held exactly if an occurrence
      of the field is text, null or an empty list, or lists have numbers for all the bytes announced, or
      more is announced than a buffer holds, which panics. */
  lemma StaleExactly(f: Frame)
    requires Fits(f)
    ensures (forall a, b :: Full(a) && Full(b) ==> Wanted(f, a) == Wanted(f, b)) <==> Fixed(f)
  {
    if Fixed(f) {
      forall a, b | Full(a) && Full(b) ensures Wanted(f, a) == Wanted(f, b) {
        FixedSame(f, a, b);
      }
    } else {
      var i :| 0 <= i < f.size && !Covers(f.forms, i);
      var a, b := FRESH, Buffer(seq<byte>(READ_BUFFER, _ => 1), 0);
      KeptShows(f, a, b, i);
      KeptShows(f, b, a, i);
      assert Wanted(f, a).value[i] != Wanted(f, b).value[i];
    }
  }

  lemma FixedSame(f: Frame, a: Buffer, b: Buffer)
    requires Fits(f) && Fixed(f) && Full(a) && Full(b)
    ensures Wanted(f, a) == Wanted(f, b)
  {
    if !KeepsBuffer(f.forms) {
      Replaced(f.forms, Slice(true, a.arr, a.len), Slice(true, b.arr, b.len));
    } else {
      KeptShows(f, a, b, 0);
      if f.size <= READ_BUFFER {
        forall i | 0 <= i < f.size ensures Wanted(f, a).value[i] == Wanted(f, b).value[i] {
          KeptShows(f, a, b, i);
        }
        assert Wanted(f, a).value == Wanted(f, b).value;
      }
    }
  }

  /** The bytes a frame has of its own. */
  function Own(f: Frame): Option<seq<byte>> {
    Wanted(f, FRESH)
  }

  /** For the text that the program's own messages carry they are the text's, up to the announced size. */
  lemma OwnText(f: Frame, bytes: seq<byte>, spare: nat)
    requires f.forms == [Text(bytes, spare)]
    ensures Own(f) == if f.size <= |bytes| + spare then Some(ZeroPadded(bytes, f.size)) else None
  {
    var before := Slice(true, FRESH.arr, FRESH.len);
    assert Decode(before, f.forms) == DecodeForm(Decode(before, f.forms[..0]), f.forms[0]);
    assert f.size <= |bytes| + spare ==> (bytes + Zeros(spare))[..f.size] == ZeroPadded(bytes, f.size);
  }

  // ----- the pool and its users

  /** A received message: the buffer it kept or its own bytes, and what its first buffer held before. */
  datatype Recvd = Recvd(frame: Frame, buf: Option<nat>, own: seq<byte>, stale: Buffer)

  /** A write to the disk, the frame it comes from, and what that frame's first buffer held before. */
  datatype Written = Written(frame: Frame, stale: Buffer, bytes: seq<byte>)

  /** An encoded message and what went to the connection for it; None is a panic. */
  datatype Emission = Emission(data: seq<byte>, out: Option<seq<byte>>)

  datatype Conn = Conn(
    sendBuf: Option<nat>, readBuf: Option<nat>, recv: seq<Recvd>, hand: Option<Recvd>, written: seq<Written>,
    emitted: seq<Emission>)

  datatype State = State(heap: map<nat, Buffer>, pool: multiset<nat>, conns: seq<Conn>)

  datatype Source = Pooled(id: nat) | New(id: nat)

  datatype Action =
    | GetSend(c: nat, src: Source) | GetRead(c: nat, src: Source)
    | Send(c: nat, data: seq<byte>)
    | Receive(c: nat, raw: seq<byte>, frame: Frame, src: Source)
    | Take(c: nat) | Write(c: nat) | Release(c: nat) | Abandon(c: nat)
    | PutSend(c: nat) | PutRead(c: nat)
    | Collect(id: nat)

  const IDLE := Conn(None, None, [], None, [], [])

  function Init(n: nat): State {
    State(map[], multiset{}, seq(n, _ => IDLE))
  }

  predicate Available(s: State, src: Source) {
    match src
    case Pooled(id) => id in s.pool && id in s.heap
    case New(id) => id !in s.heap
  }

  /** The bytes of a message up to its capacity. */
  function Bytes(heap: map<nat, Buffer>, m: Recvd): seq<byte> {
    if m.buf.Some? && m.buf.value in heap then heap[m.buf.value].arr else m.own
  }

  /** The handler puts a message's buffer back after the write, or without one if it is no file message. */
  predicate Enabled(s: State, a: Action) {
    match a
    case GetSend(c, src) => c < |s.conns| && s.conns[c].sendBuf == None && Available(s, src)
    case GetRead(c, src) => c < |s.conns| && s.conns[c].readBuf == None && Available(s, src)
    case Send(c, data) => c < |s.conns| && s.conns[c].sendBuf.Some? && s.conns[c].sendBuf.value in s.heap
    case Receive(c, raw, frame, src) =>
      && c < |s.conns| && s.conns[c].readBuf.Some? && s.conns[c].readBuf.value in s.heap
      && |raw| <= READ_BUFFER && Fits(frame) && Available(s, src)
    case Take(c) => c < |s.conns| && s.conns[c].recv != [] && s.conns[c].hand == None
    case Write(c) =>
      && c < |s.conns| && s.conns[c].hand.Some?
      && var m := s.conns[c].hand.value; m.frame.file && m.frame.size <= |Bytes(s.heap, m)|
    case Release(c) =>
      && c < |s.conns| && s.conns[c].hand.Some?
      && var m := s.conns[c].hand.value; m.frame.file ==> m.frame.size <= |Bytes(s.heap, m)|
    case Abandon(c) => c < |s.conns| && s.conns[c].hand.Some?
    case PutSend(c) => c < |s.conns| && s.conns[c].sendBuf.Some?
    case PutRead(c) => c < |s.conns| && s.conns[c].readBuf.Some?
    case Collect(id) => id in s.pool
  }

  function Update(s: State, c: nat, conn: Conn): State
    requires c < |s.conns|
  {
    s.(conns := s.conns[c := conn])
  }

  function Get(s: State, src: Source): State {
    match src
    case Pooled(id) => s.(pool := s.pool - multiset{id})
    case New(id) => s.(heap := s.heap[id := FRESH])
  }

  function Overwrite(past: seq<byte>, data: seq<byte>): (r: seq<byte>)
    ensures |r| == |past|
    ensures |data| <= |past| ==> data <= r
  {
    if |data| <= |past| then data + past[|data|..] else data[..|past|]
  }

  function ReadInto(heap: map<nat, Buffer>, id: nat, raw: seq<byte>): map<nat, Buffer>
    requires id in heap
  {
    heap[id := heap[id].(arr := Overwrite(heap[id].arr, raw))]
  }

  /** The writing loop's buffer with magic, length and data. The data is copied only up to the length of
      the slice; the first eight bytes are written below the capacity, whatever the length. */
  function Filled(b: Buffer, data: seq<byte>): seq<byte> {
    var front := F.HEAD_FILLER + F.PutUint32(|data| % F.WORD);
    Overwrite(b.arr, front + if b.len < 8 then [] else if |data| <= b.len - 8 then data else data[..b.len - 8])
  }

  /** What goes to the connection: the slice expression that is to be copied into panics below a length of
      eight, the one that is to be written beyond the capacity. */
  function Emitted(b: Buffer, data: seq<byte>): Option<seq<byte>> {
    if b.len < 8 || 8 + |data| > |b.arr| then None else Some(Filled(b, data)[..8 + |data|])
  }

  function Apply(s: State, a: Action): State
    requires Enabled(s, a)
  {
    match a
    case GetSend(c, src) => Update(Get(s, src), c, s.conns[c].(sendBuf := Some(src.id)))
    case GetRead(c, src) => Update(Get(s, src), c, s.conns[c].(readBuf := Some(src.id)))
    case Send(c, data) =>
      var id := s.conns[c].sendBuf.value;
      var conn := s.conns[c].(emitted := s.conns[c].emitted + [Emission(data, Emitted(s.heap[id], data))]);
      Update(s.(heap := s.heap[id := s.heap[id].(arr := Filled(s.heap[id], data))]), c, conn)
    case Receive(c, raw, frame, src) =>
      var filled := Get(s.(heap := ReadInto(s.heap, s.conns[c].readBuf.value, raw)), src);
      var stale := filled.heap[src.id];
      var d := Decoded(frame, stale);
      var decoded := if d.pooled then filled.(heap := filled.heap[src.id := Buffer(d.arr, d.len)]) else filled;
      var m := Recvd(frame, if d.pooled then Some(src.id) else None, d.arr, stale); // or the buffer is dropped
      Update(decoded, c, s.conns[c].(recv := s.conns[c].recv + [m]))
    case Take(c) => Update(s, c, s.conns[c].(hand := Some(s.conns[c].recv[0]), recv := s.conns[c].recv[1..]))
    case Write(c) =>
      var m := s.conns[c].hand.value;
      var w := Written(m.frame, m.stale, Bytes(s.heap, m)[..m.frame.size]);
      Update(s, c, s.conns[c].(written := s.conns[c].written + [w]))
    case Release(c) =>
      var m := s.conns[c].hand.value;
      var put := if m.buf.Some? then s.(pool := s.pool + multiset{m.buf.value}) else s;
      Update(put, c, s.conns[c].(hand := None))
    case Abandon(c) => Update(s, c, s.conns[c].(hand := None))
    case PutSend(c) =>
      Update(s.(pool := s.pool + multiset{s.conns[c].sendBuf.value}), c, s.conns[c].(sendBuf := None))
    case PutRead(c) =>
      Update(s.(pool := s.pool + multiset{s.conns[c].readBuf.value}), c, s.conns[c].(readBuf := None))
    case Collect(id) => s.(pool := s.pool - multiset{id})
  }

  function Exec(n: nat, run: seq<Action>): Option<State> {
    if run == [] then Some(Init(n))
    else
      var before := Exec(n, run[..|run| - 1]);
      var a := run[|run| - 1];
      if before.Some? && Enabled(before.value, a) then Some(Apply(before.value, a)) else None
  }

  // ----- single ownership

  function One(ref: Option<nat>, id: nat): nat {
    if ref == Some(id) then 1 else 0
  }

  function Kept(recv: seq<Recvd>, id: nat): nat {
    if recv == [] then 0 else One(recv[0].buf, id) + Kept(recv[1..], id)
  }

  function InHand(hand: Option<Recvd>, id: nat): nat {
    if hand.Some? then One(hand.value.buf, id) else 0
  }

  function Refs(conn: Conn, id: nat): nat {
    One(conn.sendBuf, id) + One(conn.readBuf, id) + Kept(conn.recv, id) + InHand(conn.hand, id)
  }

  function AllRefs(conns: seq<Conn>, id: nat): nat {
    if conns == [] then 0 else AllRefs(conns[..|conns| - 1], id) + Refs(conns[|conns| - 1], id)
  }

  /** The number of references to a buffer anywhere in the system. */
  function Total(s: State, id: nat): nat {
    s.pool[id] + AllRefs(s.conns, id)
  }

  ghost predicate OwnedAt(s: State, id: nat) {
    Total(s, id) <= 1 && (Total(s, id) > 0 ==> id in s.heap)
  }

  lemma {:induction false} KeptAppend(recv: seq<Recvd>, m: Recvd, id: nat)
    ensures Kept(recv + [m], id) == Kept(recv, id) + One(m.buf, id)
    decreases |recv|
  {
    if recv == [] {
      assert (recv + [m])[1..] == [];
    } else {
      assert (recv + [m])[1..] == recv[1..] + [m];
      KeptAppend(recv[1..], m, id);
    }
  }

  lemma {:induction false} AllRefsUpdate(conns: seq<Conn>, c: nat, conn: Conn, id: nat)
    requires c < |conns|
    ensures AllRefs(conns[c := conn], id) == AllRefs(conns, id) - Refs(conns[c], id) + Refs(conn, id)
    decreases |conns|
  {
    var k := |conns| - 1;
    if c == k {
      assert conns[c := conn][..k] == conns[..k];
    } else {
      assert conns[c := conn][..k] == conns[..k][c := conn];
      AllRefsUpdate(conns[..k], c, conn, id);
    }
  }

  lemma GetCounts(s: State, src: Source, id: nat)
    requires Available(s, src)
    ensures var t := Get(s, src);
            && t.conns == s.conns && t.pool[id] == s.pool[id] - (if src == Pooled(id) then 1 else 0)
            && (id in t.heap <==> id in s.heap || src == New(id))
            && (src == Pooled(id) ==> id in s.heap) && (src == New(id) ==> id !in s.heap)
  {
  }

  lemma GetOwned(s: State, a: Action, id: nat)
    requires (a.GetSend? || a.GetRead?) && Enabled(s, a) && OwnedAt(s, id)
    ensures OwnedAt(Apply(s, a), id) && Total(Apply(s, a), id) >= Total(s, id)
  {
    AllRefsUpdate(s.conns, a.c, Apply(s, a).conns[a.c], id);
    GetCounts(s, a.src, id);
  }

  lemma ReceiveOwned(s: State, c: nat, raw: seq<byte>, frame: Frame, src: Source, id: nat)
    requires Enabled(s, Receive(c, raw, frame, src)) && OwnedAt(s, id)
    ensures var t := Apply(s, Receive(c, raw, frame, src));
            OwnedAt(t, id) && Total(t, id) >= Total(s, id) -
                              if src == Pooled(id) && t.conns[c].recv[|s.conns[c].recv|].buf == None then 1 else 0
  {
    var t := Apply(s, Receive(c, raw, frame, src));
    AllRefsUpdate(s.conns, c, t.conns[c], id);
    KeptAppend(s.conns[c].recv, t.conns[c].recv[|s.conns[c].recv|], id);
    assert t.conns[c].recv == s.conns[c].recv + [t.conns[c].recv[|s.conns[c].recv|]];
    GetCounts(s, src, id);
  }

  lemma MoveOwned(s: State, a: Action, id: nat)
    requires (a.Take? || a.Write? || a.Abandon? || a.Send?) && Enabled(s, a) && OwnedAt(s, id)
    ensures OwnedAt(Apply(s, a), id)
    ensures Total(Apply(s, a), id) >= Total(s, id) - if a.Abandon? then InHand(s.conns[a.c].hand, id) else 0
  {
    assert s.conns[a.c := s.conns[a.c]] == s.conns;
    AllRefsUpdate(s.conns, a.c, Apply(s, a).conns[a.c], id);
  }

  lemma PutOwned(s: State, a: Action, id: nat)
    requires (a.Release? || a.PutSend? || a.PutRead?) && Enabled(s, a) && OwnedAt(s, id)
    ensures OwnedAt(Apply(s, a), id) && Total(Apply(s, a), id) >= Total(s, id)
  {
    AllRefsUpdate(s.conns, a.c, Apply(s, a).conns[a.c], id);
  }

  /** The step drops the buffer: the pool may, a frame that brings its own bytes does with the buffer the
      message started out with, and a handler that stops does with the one in its hand. */
  predicate LetsGo(s: State, a: Action, id: nat)
    requires Enabled(s, a)
  {
    || a == Collect(id)
    || (a.Receive? && a.src == Pooled(id) && Apply(s, a).conns[a.c].recv[|s.conns[a.c].recv|].buf == None)
    || (a.Abandon? && InHand(s.conns[a.c].hand, id) > 0)
  }

  /** Whoever has done with a buffer puts it back: no other step loses one. */
  lemma OwnedStep(s: State, a: Action, id: nat)
    requires Enabled(s, a) && OwnedAt(s, id)
    ensures OwnedAt(Apply(s, a), id)
    ensures !LetsGo(s, a, id) ==> Total(Apply(s, a), id) >= Total(s, id)
  {
    match a
    case GetSend(_, _) => GetOwned(s, a, id);
    case GetRead(_, _) => GetOwned(s, a, id);
    case Receive(c, raw, frame, src) => ReceiveOwned(s, c, raw, frame, src, id);
    case Release(_) => PutOwned(s, a, id);
    case PutSend(_) => PutOwned(s, a, id);
    case PutRead(_) => PutOwned(s, a, id);
    case Collect(_) =>
    case _ => MoveOwned(s, a, id);
  }

  /** In every run each buffer for reading has at most one owner among the pool, the loops that write
      and read frames, and the messages received. */
  lemma {:induction false} SingleOwner(n: nat, run: seq<Action>, id: nat)
    requires Exec(n, run).Some?
    ensures OwnedAt(Exec(n, run).value, id)
    decreases |run|
  {
    if run == [] {
      NoRefs(n, id);
    } else {
      SingleOwner(n, run[..|run| - 1], id);
      OwnedStep(Exec(n, run[..|run| - 1]).value, run[|run| - 1], id);
    }
  }

  lemma {:induction false} NoRefs(n: nat, id: nat)
    ensures AllRefs(seq(n, _ => IDLE), id) == 0
    decreases n
  {
    if n > 0 {
      assert seq(n, _ => IDLE)[..n - 1] == seq(n - 1, _ => IDLE);
      NoRefs(n - 1, id);
    }
  }

  // ----- what is written

  /** The message shows what decoding made of its first buffer. */
  ghost predicate GoodMessage(heap: map<nat, Buffer>, m: Recvd) {
    && Fits(m.frame) && Full(m.stale)
    && var d := Decoded(m.frame, m.stale);
       && (m.buf.Some? <==> d.pooled) && (m.buf.Some? ==> m.buf.value in heap) && Bytes(heap, m) == d.arr
  }

  ghost predicate GoodWrite(w: Written) {
    Fits(w.frame) && Full(w.stale) && Wanted(w.frame, w.stale) == Some(w.bytes)
  }

  ghost predicate GoodConn(heap: map<nat, Buffer>, conn: Conn) {
    && (forall k :: 0 <= k < |conn.recv| ==> GoodMessage(heap, conn.recv[k]))
    && (conn.hand.Some? ==> GoodMessage(heap, conn.hand.value))
    && (forall k :: 0 <= k < |conn.written| ==> GoodWrite(conn.written[k]))
  }

  ghost predicate Good(s: State) {
    && (forall id :: id in s.heap ==> Full(s.heap[id]))
    && (forall c :: 0 <= c < |s.conns| ==> GoodConn(s.heap, s.conns[c]))
  }

  ghost predicate Owned(s: State) {
    forall id :: OwnedAt(s, id)
  }

  lemma {:induction false} KeptNone(recv: seq<Recvd>, id: nat)
    requires Kept(recv, id) == 0
    ensures forall k :: 0 <= k < |recv| ==> recv[k].buf != Some(id)
    decreases |recv|
  {
    if recv != [] {
      KeptNone(recv[1..], id);
    }
  }

  lemma RefsBelow(conns: seq<Conn>, c: nat, d: nat, id: nat)
    requires c < |conns| && d < |conns|
    ensures AllRefs(conns, id) >= Refs(conns[c], id)
    ensures c != d ==> AllRefs(conns, id) >= Refs(conns[c], id) + Refs(conns[d], id)
  {
    AllRefsUpdate(conns, c, IDLE, id);
    AllRefsUpdate(conns[c := IDLE], d, IDLE, id);
  }

  /** A buffer that a loop is using is no message's, nor another loop's. */
  lemma UsedByLoop(s: State, c: nat, id: nat, d: nat)
    requires Owned(s) && c < |s.conns| && d < |s.conns|
    requires s.conns[c].sendBuf == Some(id) || s.conns[c].readBuf == Some(id)
    ensures Kept(s.conns[d].recv, id) == 0 && InHand(s.conns[d].hand, id) == 0 && id !in s.pool
  {
    assert OwnedAt(s, id);
    RefsBelow(s.conns, c, d, id);
  }

  /** A buffer that is about to be used is in no use, and not twice in the pool. */
  lemma Unused(s: State, src: Source, d: nat)
    requires Owned(s) && Available(s, src) && d < |s.conns|
    ensures Refs(s.conns[d], src.id) == 0 && src.id !in Get(s, src).pool
  {
    assert OwnedAt(s, src.id);
    RefsBelow(s.conns, d, d, src.id);
  }

  /** Changing a buffer that is no message's leaves messages as they are. */
  lemma GoodElsewhere(heap: map<nat, Buffer>, id: nat, b: Buffer, conn: Conn)
    requires GoodConn(heap, conn) && Kept(conn.recv, id) == 0 && InHand(conn.hand, id) == 0
    ensures GoodConn(heap[id := b], conn)
  {
    KeptNone(conn.recv, id);
  }

  lemma GoodGet(s: State, src: Source, d: nat)
    requires Good(s) && Owned(s) && Available(s, src) && d < |s.conns|
    ensures GoodConn(Get(s, src).heap, s.conns[d])
  {
    Unused(s, src, d);
    if src.New? {
      GoodElsewhere(s.heap, src.id, FRESH, s.conns[d]);
    }
  }

  lemma DecodedFull(f: Frame, b: Buffer)
    requires Fits(f) && Full(b)
    ensures Decoded(f, b).pooled <==> KeepsBuffer(f.forms)
    ensures Decoded(f, b).pooled ==> |Decoded(f, b).arr| == READ_BUFFER
  {
    if KeepsBuffer(f.forms) {
      KeptShows(f, b, b, 0);
    } else {
      Replaced(f.forms, Slice(true, b.arr, b.len), Slice(true, b.arr, b.len));
    }
  }

  lemma GoodSend(s: State, a: Action, d: nat)
    requires Good(s) && Owned(s) && Enabled(s, a) && a.Send? && d < |s.conns|
    ensures GoodConn(Apply(s, a).heap, Apply(s, a).conns[d])
  {
    var id := s.conns[a.c].sendBuf.value;
    UsedByLoop(s, a.c, id, d);
    GoodElsewhere(s.heap, id, Apply(s, a).heap[id], s.conns[d]);
  }

  lemma GoodReceive(s: State, a: Action, d: nat)
    requires Good(s) && Owned(s) && Enabled(s, a) && a.Receive? && d < |s.conns|
    ensures GoodConn(Apply(s, a).heap, Apply(s, a).conns[d])
  {
    var t := Apply(s, a);
    GoodAround(s, a, d);
    if d == a.c {
      GoodNew(s, a);
      assert t.conns[d] == s.conns[d].(recv := t.conns[d].recv);
      assert forall k :: 0 <= k < |s.conns[d].recv| ==> t.conns[d].recv[k] == s.conns[d].recv[k];
    }
  }

  /** The two buffers that change are no other message's. */
  lemma GoodAround(s: State, a: Action, d: nat)
    requires Good(s) && Owned(s) && Enabled(s, a) && a.Receive? && d < |s.conns|
    ensures GoodConn(Apply(s, a).heap, s.conns[d])
  {
    var id := s.conns[a.c].readBuf.value;
    var t := Apply(s, a);
    UsedByLoop(s, a.c, id, d);
    Unused(s, a.src, d);
    var h1 := ReadInto(s.heap, id, a.raw);
    GoodElsewhere(s.heap, id, h1[id], s.conns[d]);
    assert GoodConn(h1, s.conns[d]);
    var b := if a.src.id in t.heap then t.heap[a.src.id] else FRESH;
    GoodElsewhere(h1, a.src.id, b, s.conns[d]);
    assert t.heap == h1 || t.heap == h1[a.src.id := b];
  }

  lemma GoodNew(s: State, a: Action)
    requires Good(s) && Enabled(s, a) && a.Receive?
    ensures GoodMessage(Apply(s, a).heap, Apply(s, a).conns[a.c].recv[|s.conns[a.c].recv|])
  {
    var h1 := ReadInto(s.heap, s.conns[a.c].readBuf.value, a.raw);
    assert Full(if a.src.New? then FRESH else h1[a.src.id]);
  }

  /** Steps that change no buffer. */
  predicate LeavesBuffers(a: Action) {
    a.Take? || a.Write? || a.Release? || a.Abandon? || a.PutSend? || a.PutRead? || a.Collect?
  }

  lemma GoodMove(s: State, a: Action, d: nat)
    requires Good(s) && Enabled(s, a) && LeavesBuffers(a) && d < |s.conns|
    ensures GoodConn(Apply(s, a).heap, Apply(s, a).conns[d])
  {
    var t := Apply(s, a);
    assert GoodConn(s.heap, s.conns[d]) && t.heap == s.heap;
    if a.Write? && a.c == d {
      var m := s.conns[d].hand.value;
      assert GoodWrite(Written(m.frame, m.stale, Bytes(s.heap, m)[..m.frame.size]));
    } else {
      assert t.conns[d].written == s.conns[d].written;
    }
  }

  lemma GoodStep(s: State, a: Action)
    requires Good(s) && Owned(s) && Enabled(s, a)
    ensures Good(Apply(s, a))
  {
    var t := Apply(s, a);
    FullStep(s, a);
    forall d: nat | d < |t.conns| ensures GoodConn(t.heap, t.conns[d]) {
      GoodConnStep(s, a, d);
    }
  }

  lemma GoodConnStep(s: State, a: Action, d: nat)
    requires Good(s) && Owned(s) && Enabled(s, a) && d < |Apply(s, a).conns|
    ensures GoodConn(Apply(s, a).heap, Apply(s, a).conns[d])
  {
    if LeavesBuffers(a) {
      GoodMove(s, a, d);
    } else if a.Send? {
      GoodSend(s, a, d);
    } else if a.Receive? {
      GoodReceive(s, a, d);
    } else {
      GoodGet(s, a.src, d);
    }
  }

  lemma FullStep(s: State, a: Action)
    requires Good(s) && Enabled(s, a)
    ensures forall id :: id in Apply(s, a).heap ==> Full(Apply(s, a).heap[id])
  {
    if a.Receive? {
      FullReceive(s, a);
    }
  }

  lemma FullReceive(s: State, a: Action)
    requires Good(s) && Enabled(s, a) && a.Receive?
    ensures forall id :: id in Apply(s, a).heap ==> Full(Apply(s, a).heap[id])
  {
    var h1 := ReadInto(s.heap, s.conns[a.c].readBuf.value, a.raw);
    var stale := if a.src.New? then FRESH else h1[a.src.id];
    assert Full(stale) && forall id :: id in h1 ==> Full(h1[id]);
    DecodedFull(a.frame, stale);
  }

  lemma {:induction false} GoodAlways(n: nat, run: seq<Action>)
    requires Exec(n, run).Some?
    ensures Good(Exec(n, run).value) && Owned(Exec(n, run).value)
    decreases |run|
  {
    forall id ensures OwnedAt(Exec(n, run).value, id) {
      SingleOwner(n, run, id);
    }
    if run != [] {
      var k := |run| - 1;
      GoodAlways(n, run[..k]);
      GoodStep(Exec(n, run[..k]).value, run[k]);
    }
  }

  /** In every run, what is written for a frame follows from the frame alone if it is one for which old
      contents do not matter; otherwise from the frame and what its first buffer held. */
  lemma OwnBytesWritten(n: nat, run: seq<Action>, c: nat, k: nat)
    requires Exec(n, run).Some? && c < |Exec(n, run).value.conns|
    requires k < |Exec(n, run).value.conns[c].written|
    ensures var w := Exec(n, run).value.conns[c].written[k];
            && Full(w.stale) && Wanted(w.frame, w.stale) == Some(w.bytes)
            && (Fixed(w.frame) ==> Own(w.frame) == Some(w.bytes))
  {
    GoodAlways(n, run);
    var w := Exec(n, run).value.conns[c].written[k];
    assert GoodWrite(w);
    if Fixed(w.frame) {
      FixedSame(w.frame, w.stale, FRESH);
    }
  }

  // ----- lengths

  /** What the writing loop sends is the frame of its message, for all old contents, exactly if its buffer
      is long enough for the whole of it. */
  lemma EmittedExactly(len: nat, data: seq<byte>)
    requires 8 + |data| <= READ_BUFFER && len <= READ_BUFFER
    ensures (forall b :: Full(b) && b.len == len ==> Emitted(b, data) == Some(F.Frame(data))) <==> 8 + |data| <= len
  {
    forall b | Full(b) && b.len == len && 8 + |data| <= len ensures Emitted(b, data) == Some(F.Frame(data)) {
      FrameFilled(b, data);
    }
    if 8 + |data| > len {
      if len < 8 {
        assert Full(Buffer(FRESH.arr, len)) && Emitted(Buffer(FRESH.arr, len), data) == None;
      } else {
        var b := Buffer(seq<byte>(READ_BUFFER, _ => (data[len - 8] as nat + 1) % 256), len);
        CutShort(b, data);
        assert Full(b) && b.len == len;
      }
    }
  }

  lemma FrameFilled(b: Buffer, data: seq<byte>)
    requires Full(b) && 8 + |data| <= b.len <= READ_BUFFER
    ensures Emitted(b, data) == Some(F.Frame(data))
  {
    var front := F.HEAD_FILLER + F.PutUint32(|data| % F.WORD);
    assert Filled(b, data) == (front + data) + b.arr[8 + |data|..];
    assert Filled(b, data)[..8 + |data|] == front + data;
  }

  /** With a shorter slice the frame ends in old contents. */
  lemma CutShort(b: Buffer, data: seq<byte>)
    requires Full(b) && 8 <= b.len < 8 + |data| <= READ_BUFFER
    requires b.arr[b.len] != data[b.len - 8]
    ensures Emitted(b, data).Some? && Emitted(b, data) != Some(F.Frame(data))
  {
    var front := F.HEAD_FILLER + F.PutUint32(|data| % F.WORD);
    assert Filled(b, data) == (front + data[..b.len - 8]) + b.arr[b.len..];
    assert Filled(b, data)[..8 + |data|][b.len] == b.arr[b.len];
    assert F.Frame(data)[b.len] == data[b.len - 8];
  }

  /** A message after which its first buffer does not come back shorter: it has no such field, or replaces
      the buffer, or is a file message that announces too much, so that the handler panics. */
  predicate KeepsLength(f: Frame) {
    f.forms == [] || !KeepsBuffer(f.forms) || (f.file && f.size > READ_BUFFER)
  }

  ghost predicate LongMessage(heap: map<nat, Buffer>, m: Recvd) {
    m.buf.Some? && m.buf.value in heap ==>
      heap[m.buf.value].len == READ_BUFFER || (m.frame.file && m.frame.size > READ_BUFFER)
  }

  ghost predicate LongRef(heap: map<nat, Buffer>, ref: Option<nat>) {
    ref.Some? && ref.value in heap ==> heap[ref.value].len == READ_BUFFER
  }

  /** What was sent for a message is its frame, or nothing, by a panic, if it is too large for any buffer. */
  predicate Whole(e: Emission) {
    e.out == if 8 + |e.data| <= READ_BUFFER then Some(F.Frame(e.data)) else None
  }

  ghost predicate LongConn(heap: map<nat, Buffer>, conn: Conn) {
    && LongRef(heap, conn.sendBuf) && LongRef(heap, conn.readBuf)
    && (forall k :: 0 <= k < |conn.recv| ==> LongMessage(heap, conn.recv[k]))
    && (conn.hand.Some? ==> LongMessage(heap, conn.hand.value))
    && (forall k :: 0 <= k < |conn.emitted| ==> Whole(conn.emitted[k]))
  }

  ghost predicate LongPool(s: State) {
    forall id :: id in s.pool && id in s.heap ==> s.heap[id].len == READ_BUFFER
  }

  ghost predicate Long(s: State) {
    LongPool(s) && forall c :: 0 <= c < |s.conns| ==> LongConn(s.heap, s.conns[c])
  }

  /** Every other buffer keeps its length. */
  ghost predicate SameLengths(h: map<nat, Buffer>, h': map<nat, Buffer>, except: nat) {
    h'.Keys <= h.Keys + {except} && forall id :: id in h && id in h' && id != except ==> h'[id].len == h[id].len
  }

  lemma LongElsewhere(h: map<nat, Buffer>, h': map<nat, Buffer>, except: nat, conn: Conn)
    requires LongConn(h, conn) && SameLengths(h, h', except)
    requires Refs(conn, except) == 0 || (except in h' && h'[except].len == READ_BUFFER)
    ensures LongConn(h', conn)
  {
    if Refs(conn, except) == 0 {
      KeptNone(conn.recv, except);
    }
  }

  lemma LongGet(s: State, src: Source, d: nat)
    requires Long(s) && Owned(s) && Available(s, src) && d < |s.conns|
    ensures LongConn(Get(s, src).heap, s.conns[d]) && LongPool(Get(s, src))
    ensures src.id in Get(s, src).heap && Get(s, src).heap[src.id].len == READ_BUFFER
  {
    Unused(s, src, d);
    LongElsewhere(s.heap, Get(s, src).heap, src.id, s.conns[d]);
  }

  lemma LongSend(s: State, a: Action, d: nat)
    requires Long(s) && Good(s) && Enabled(s, a) && a.Send? && d < |s.conns|
    ensures LongConn(Apply(s, a).heap, Apply(s, a).conns[d]) && LongPool(Apply(s, a))
  {
    var id := s.conns[a.c].sendBuf.value;
    var t := Apply(s, a);
    assert LongConn(s.heap, s.conns[d]) && LongConn(s.heap, s.conns[a.c]);
    LongElsewhere(s.heap, t.heap, id, s.conns[d]);
    if 8 + |a.data| <= READ_BUFFER {
      FrameFilled(s.heap[id], a.data);
    }
    assert Whole(Emission(a.data, Emitted(s.heap[id], a.data)));
  }

  lemma LongReceive(s: State, a: Action, d: nat)
    requires Long(s) && Good(s) && Owned(s) && Enabled(s, a) && a.Receive? && KeepsLength(a.frame) && d < |s.conns|
    ensures LongConn(Apply(s, a).heap, Apply(s, a).conns[d])
  {
    var t := Apply(s, a);
    LongAround(s, a, d);
    DecodedKeepsLength(s, a);
    if d == a.c {
      assert t.conns[d] == s.conns[d].(recv := t.conns[d].recv);
      assert forall k :: 0 <= k < |s.conns[d].recv| ==> t.conns[d].recv[k] == s.conns[d].recv[k];
    }
  }

  /** The buffer that a message starts out with is the only one whose length changes. */
  lemma LongAround(s: State, a: Action, d: nat)
    requires Long(s) && Good(s) && Owned(s) && Enabled(s, a) && a.Receive? && KeepsLength(a.frame) && d < |s.conns|
    ensures LongConn(Apply(s, a).heap, s.conns[d]) && LongPool(Apply(s, a))
  {
    var g, t := Get(s, a.src), Apply(s, a);
    LongGet(s, a.src, d);
    DecodedKeepsLength(s, a);
    Unused(s, a.src, d);
    LongElsewhere(g.heap, t.heap, a.src.id, s.conns[d]);
    assert t.pool == g.pool;
  }

  lemma DecodedKeepsLength(s: State, a: Action)
    requires Long(s) && Good(s) && Owned(s) && Enabled(s, a) && a.Receive? && KeepsLength(a.frame)
    ensures var t := Apply(s, a);
            && a.src.id in t.heap && SameLengths(Get(s, a.src).heap, t.heap, a.src.id)
            && LongMessage(t.heap, t.conns[a.c].recv[|s.conns[a.c].recv|])
  {
    var h1 := ReadInto(s.heap, s.conns[a.c].readBuf.value, a.raw);
    DecodedFull(a.frame, if a.src.New? then FRESH else h1[a.src.id]);
  }

  lemma LongMove(s: State, a: Action, d: nat)
    requires Long(s) && Enabled(s, a) && LeavesBuffers(a) && d < |s.conns|
    ensures LongConn(Apply(s, a).heap, Apply(s, a).conns[d])
  {
    var t := Apply(s, a);
    assert LongConn(s.heap, s.conns[d]) && t.heap == s.heap;
    assert t.conns[d].emitted == s.conns[d].emitted;
  }

  /** A message whose buffer is short is never released. */
  lemma LongPut(s: State, a: Action)
    requires Long(s) && Good(s) && Enabled(s, a) && LeavesBuffers(a)
    ensures LongPool(Apply(s, a))
  {
    if !a.Collect? {
      assert LongConn(s.heap, s.conns[a.c]) && GoodConn(s.heap, s.conns[a.c]);
    }
  }

  lemma LongUse(s: State, a: Action, d: nat)
    requires Long(s) && Owned(s) && Enabled(s, a) && (a.GetSend? || a.GetRead?) && d < |s.conns|
    ensures LongConn(Apply(s, a).heap, Apply(s, a).conns[d])
  {
    var t := Apply(s, a);
    LongGet(s, a.src, d);
    assert t.heap == Get(s, a.src).heap;
    assert t.conns[d].recv == s.conns[d].recv && t.conns[d].hand == s.conns[d].hand;
    assert t.conns[d].emitted == s.conns[d].emitted;
  }

  lemma LongConnStep(s: State, a: Action, d: nat)
    requires Long(s) && Good(s) && Owned(s) && Enabled(s, a) && (a.Receive? ==> KeepsLength(a.frame))
    requires d < |Apply(s, a).conns|
    ensures LongConn(Apply(s, a).heap, Apply(s, a).conns[d])
  {
    if LeavesBuffers(a) {
      LongMove(s, a, d);
    } else if a.Send? {
      LongSend(s, a, d);
    } else if a.Receive? {
      LongReceive(s, a, d);
    } else {
      LongUse(s, a, d);
    }
  }

  lemma LongPoolStep(s: State, a: Action)
    requires Long(s) && Good(s) && Owned(s) && Enabled(s, a) && (a.Receive? ==> KeepsLength(a.frame))
    ensures LongPool(Apply(s, a))
  {
    if LeavesBuffers(a) {
      LongPut(s, a);
    } else if a.Send? {
      LongSend(s, a, a.c);
    } else if a.Receive? {
      LongAround(s, a, a.c);
    } else {
      LongGet(s, a.src, a.c);
    }
  }

  lemma LongStep(s: State, a: Action)
    requires Long(s) && Good(s) && Owned(s) && Enabled(s, a) && (a.Receive? ==> KeepsLength(a.frame))
    ensures Long(Apply(s, a))
  {
    var t := Apply(s, a);
    LongPoolStep(s, a);
    forall d: nat | d < |t.conns| ensures LongConn(t.heap, t.conns[d]) {
      LongConnStep(s, a, d);
    }
  }

  /** The run receives this frame and otherwise only frames that keep the length. */
  ghost predicate Receives(run: seq<Action>, f: Frame) {
    forall k :: 0 <= k < |run| && run[k].Receive? ==> run[k].frame == f || KeepsLength(run[k].frame)
  }

  lemma {:induction false} LongAlways(n: nat, run: seq<Action>, f: Frame)
    requires Exec(n, run).Some? && Receives(run, f) && KeepsLength(f)
    ensures Long(Exec(n, run).value)
    decreases |run|
  {
    if run != [] {
      var k := |run| - 1;
      assert Receives(run[..k], f);
      LongAlways(n, run[..k], f);
      GoodAlways(n, run[..k]);
      LongStep(Exec(n, run[..k]).value, run[k]);
    }
  }

  /** Every buffer in the pool has full length. */
  ghost predicate PoolIsLong(n: nat, run: seq<Action>) {
    Exec(n, run).Some? ==> LongPool(Exec(n, run).value)
  }

  /** Every message that fits was sent as its frame. */
  ghost predicate SendsFrames(n: nat, run: seq<Action>) {
    Exec(n, run).Some? ==>
      var conns := Exec(n, run).value.conns;
      forall c, k :: 0 <= c < |conns| && 0 <= k < |conns[c].emitted| ==> Whole(conns[c].emitted[k])
  }

  /** All buffers in the pool keep their full length, and all frames written are those of their messages,
      in every run that receives frames like this one, exactly if it keeps the length. */
  lemma LengthsKeptExactly(f: Frame)
    requires Fits(f)
    ensures (forall n, run :: Receives(run, f) ==> PoolIsLong(n, run)) <==> KeepsLength(f)
    ensures (forall n, run :: Receives(run, f) ==> SendsFrames(n, run)) <==> KeepsLength(f)
  {
    if KeepsLength(f) {
      forall n, run | Receives(run, f) ensures PoolIsLong(n, run) && SendsFrames(n, run) {
        LongEnough(n, run, f);
      }
    } else {
      var run, s := ShortInPool(f);
      assert !PoolIsLong(1, run);
      var more := ShortSends(f, run, s);
      assert !SendsFrames(1, more);
    }
  }

  lemma LongEnough(n: nat, run: seq<Action>, f: Frame)
    requires Receives(run, f) && KeepsLength(f)
    ensures PoolIsLong(n, run) && SendsFrames(n, run)
  {
    if Exec(n, run).Some? {
      LongAlways(n, run, f);
      var s := Exec(n, run).value;
      assert forall c :: 0 <= c < |s.conns| ==> LongConn(s.heap, s.conns[c]);
    }
  }

  lemma Appended(n: nat, run: seq<Action>, s: State, a: Action) returns (more: seq<Action>, t: State)
    requires Exec(n, run) == Some(s) && Enabled(s, a)
    ensures more == run + [a] && t == Apply(s, a) && Exec(n, more) == Some(t)
  {
    more, t := run + [a], Apply(s, a);
    assert more[..|run|] == run;
  }

  /** The frame is received and handled, and its buffer is in the pool with the length of its list. */
  lemma ShortInPool(f: Frame) returns (run: seq<Action>, s: State)
    requires Fits(f) && !KeepsLength(f)
    ensures Exec(1, run) == Some(s) && Receives(run, f)
    ensures |s.conns| == 1 && s.conns[0].sendBuf == None && s.conns[0].emitted == []
    ensures 1 in s.pool && 1 in s.heap && Full(s.heap[1]) && s.heap[1].len < READ_BUFFER - 8
  {
    var r1, s1 := Appended(1, [], Init(1), GetRead(0, New(0)));
    KeptShows(f, FRESH, FRESH, 0);
    var r2, s2 := Appended(1, r1, s1, Receive(0, [], f, New(1)));
    assert s2.conns[0].recv[0].buf == Some(1) && s2.heap[1].len == |f.forms[|f.forms| - 1].elems|;
    var r3, s3 := Appended(1, r2, s2, Take(0));
    run, s := Appended(1, r3, s3, Release(0));
    assert s.pool[1] == 1;
  }

  /** A writing loop gets it, and for some message sends no frame of it. */
  lemma ShortSends(f: Frame, run: seq<Action>, s: State) returns (more: seq<Action>)
    requires Exec(1, run) == Some(s) && Receives(run, f)
    requires |s.conns| == 1 && s.conns[0].sendBuf == None && s.conns[0].emitted == []
    requires 1 in s.pool && 1 in s.heap && Full(s.heap[1]) && s.heap[1].len < READ_BUFFER - 8
    ensures Receives(more, f) && !SendsFrames(1, more)
  {
    var r1, s1 := Appended(1, run, s, GetSend(0, Pooled(1)));
    var data := Spoilt(s.heap[1]);
    var t;
    more, t := Appended(1, r1, s1, Send(0, data));
    assert t.conns[0].emitted == [Emission(data, Emitted(s.heap[1], data))];
    assert !Whole(t.conns[0].emitted[0]);
  }

  /** A message that the short buffer spoils. */
  lemma Spoilt(b: Buffer) returns (data: seq<byte>)
    requires Full(b) && b.len < READ_BUFFER - 8
    ensures !Whole(Emission(data, Emitted(b, data)))
  {
    if b.len < 8 {
      data := [];
    } else {
      data := seq<byte>(b.len - 7, _ => (b.arr[b.len] as nat + 1) % 256);
      CutShort(b, data);
    }
  }

  // ----- a run that writes old bytes

  /** One connection has read a frame and gone, and its buffer is in the pool. */
  lemma BufferRecycled(past: seq<byte>) returns (run: seq<Action>, s: State)
    requires |past| <= READ_BUFFER
    ensures Exec(2, run) == Some(s) && |s.conns| == 2 && s.conns[0] == IDLE
    ensures s.heap.Keys == {0, 1} && s.pool == multiset{0} && past <= s.heap[0].arr && Full(s.heap[0])
  {
    var f := Frame([Null], 0, true);
    assert Decode(Slice(true, FRESH.arr, FRESH.len), f.forms) == Slice(false, [], 0) by {
      assert f.forms[..0] == [];
    }
    var r1, s1 := Appended(2, [], Init(2), GetRead(1, New(0)));
    var r2, s2 := Appended(2, r1, s1, Receive(1, past, f, New(1)));
    run, s := Appended(2, r2, s2, PutRead(1));
    assert s.pool == multiset{0};
  }

  /** Another connection receives a frame that keeps that buffer, and its handler takes it. */
  lemma OldBufferTaken(past: seq<byte>, f: Frame) returns (run: seq<Action>, s: State, b: Buffer)
    requires Fits(f) && KeepsBuffer(f.forms) && |past| <= READ_BUFFER
    ensures Exec(2, run) == Some(s) && |s.conns| == 2 && Full(b) && past <= b.arr
    ensures s.conns[0].hand.Some? && s.conns[0].hand.value.(buf := None) == Recvd(f, None, Decoded(f, b).arr, b)
    ensures s.conns[0].written == [] && Bytes(s.heap, s.conns[0].hand.value) == Decoded(f, b).arr
  {
    var r3, s3 := BufferRecycled(past);
    var r4, s4 := Appended(2, r3, s3, GetRead(0, New(2)));
    b := s4.heap[0];
    var r5, s5 := Appended(2, r4, s4, Receive(0, [], f, Pooled(0)));
    KeptShows(f, b, b, 0);
    run, s := Appended(2, r5, s5, Take(0));
  }

  /** For any bytes that one connection read, a file message that keeps its first buffer, received by
      another connection, can have them written to its file, wherever no list has a number. */
  lemma OldBytesWritten(past: seq<byte>, f: Frame)
    requires Fits(f) && KeepsBuffer(f.forms) && f.file && f.size <= |past| <= READ_BUFFER
    ensures exists run, bytes, stale ::
              && Exec(2, run).Some? && |Exec(2, run).value.conns| == 2
              && Exec(2, run).value.conns[0].written == [Written(f, stale, bytes)] && |bytes| == f.size
              && forall i :: 0 <= i < f.size && !Covers(f.forms, i) ==> bytes[i] == past[i]
  {
    var r6, s6, b := OldBufferTaken(past, f);
    KeptShows(f, b, b, 0);
    var bytes := Decoded(f, b).arr[..f.size];
    var r7, s7 := Appended(2, r6, s6, Write(0));
    assert s7.conns[0].written == [Written(f, b, bytes)];
    forall i | 0 <= i < f.size && !Covers(f.forms, i) ensures bytes[i] == past[i] {
      KeptShows(f, b, b, i);
      assert b.arr[i] == past[i];
    }
  }
}
