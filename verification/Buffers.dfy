/** The buffer pools shared by all connections. A sending goroutine reads files into one
    pooled buffer and copies each chunk into another, which travels with the message to the
    connection's sending loop, is encoded there and put back into the pool its capacity
    belongs to. Recycled buffers keep their old bytes. */
module Buffers {
  import opened Wrappers
  import opened Numerals
  import opened Messages

  /** A backing array with this capacity, seen at its length. */
  datatype Buf = Buf(cap: nat, bytes: seq<byte>)

  datatype Msg = Msg(buf: nat, size: nat)

  /** An encoded message: the whole buffer, and how much of it is meant. */
  datatype Emitted = Emitted(bytes: seq<byte>, size: nat)

  /** One connection: the sending goroutine's buffer with the chunk last read, the message
      buffer it is filling, the send channel, the buffer in the sending loop's hand, and
      what was handed to the channel (by value) and encoded so far. */
  datatype Conn = Conn(
    reader: Option<nat>, chunk: seq<byte>, building: Option<nat>, queue: seq<Msg>, hand: Option<nat>,
    sent: seq<seq<byte>>, out: seq<Emitted>)

  /** Pools are multisets: nothing in sync.Pool itself prevents a buffer from being put twice. */
  datatype State = State(heap: map<nat, Buf>, sendPool: multiset<nat>, tagPool: multiset<nat>, conns: seq<Conn>)

  datatype Source = Pooled(id: nat) | New(id: nat)

  datatype Action =
    | GetReader(c: nat, src: Source)
    | ReadFile(c: nat, data: seq<byte>)
    | GetBuffer(c: nat, src: Source)
    | CopyAndSend(c: nat)
    | SendStatus(c: nat, id: nat, cap: nat, val: seq<byte>) // a message with bytes of its own
    | Marshal(c: nat)
    | PutBack(c: nat)
    | PutReader(c: nat)
    | Collect(id: nat) // sync.Pool may drop what it holds

  const IDLE := Conn(None, [], None, [], None, [], [])

  function Init(n: nat): State {
    State(map[], multiset{}, multiset{}, seq(n, _ => IDLE))
  }

  /** buildFileMsg takes a tag buffer for a chunk of exactly that size (of a filler). */
  predicate WantsTag(s: State, c: nat, filler: bool)
    requires c < |s.conns|
  {
    filler && |s.conns[c].chunk| == TAG_BUFFER
  }

  predicate Available(s: State, src: Source, pool: multiset<nat>) {
    match src
    case Pooled(id) => id in pool && id in s.heap
    case New(id) => id !in s.heap
  }

  function Overwrite(bytes: seq<byte>, data: seq<byte>): (r: seq<byte>)
    ensures |r| == |bytes|
  {
    if |data| <= |bytes| then data + bytes[|data|..] else data[..|bytes|]
  }

  predicate Enabled(s: State, filler: bool, a: Action) {
    match a
    case GetReader(c, src) => c < |s.conns| && s.conns[c].reader == None && Available(s, src, s.sendPool)
    case ReadFile(c, data) =>
      && c < |s.conns| && s.conns[c].reader.Some? && s.conns[c].reader.value in s.heap
      && s.conns[c].chunk == [] && 1 <= |data| <= |s.heap[s.conns[c].reader.value].bytes|
    case GetBuffer(c, src) =>
      && c < |s.conns| && s.conns[c].chunk != [] && s.conns[c].building == None
      && Available(s, src, if WantsTag(s, c, filler) then s.tagPool else s.sendPool)
    case CopyAndSend(c) =>
      && c < |s.conns| && s.conns[c].building.Some? && s.conns[c].building.value in s.heap
      && s.conns[c].reader.Some? && s.conns[c].reader.value in s.heap
      && |s.conns[c].chunk| <= |s.heap[s.conns[c].reader.value].bytes|
    case SendStatus(c, id, cap, val) => c < |s.conns| && id !in s.heap && |val| <= cap
    case Marshal(c) =>
      && c < |s.conns| && s.conns[c].queue != [] && s.conns[c].hand == None
      && s.conns[c].queue[0].buf in s.heap
    case PutBack(c) => c < |s.conns| && s.conns[c].hand.Some? && s.conns[c].hand.value in s.heap
    case PutReader(c) =>
      c < |s.conns| && s.conns[c].reader.Some? && s.conns[c].chunk == [] && s.conns[c].building == None
    case Collect(id) => id in s.sendPool || id in s.tagPool
  }

  function Zeroed(cap: nat): Buf {
    Buf(cap, seq<byte>(cap, _ => 0))
  }

  function Update(s: State, c: nat, conn: Conn): State
    requires c < |s.conns|
  {
    s.(conns := s.conns[c := conn])
  }

  function Take(s: State, src: Source, tag: bool): State {
    match src
    case Pooled(id) =>
      if tag then s.(tagPool := s.tagPool - multiset{id}) else s.(sendPool := s.sendPool - multiset{id})
    case New(id) => s.(heap := s.heap[id := Zeroed(if tag then TAG_BUFFER else SEND_BUFFER)])
  }

  function Apply(s: State, filler: bool, a: Action): State
    requires Enabled(s, filler, a)
  {
    match a
    case GetReader(c, src) => Update(Take(s, src, false), c, s.conns[c].(reader := Some(src.id)))
    case ReadFile(c, data) =>
      var id := s.conns[c].reader.value;
      Update(s.(heap := s.heap[id := s.heap[id].(bytes := Overwrite(s.heap[id].bytes, data))]), c,
             s.conns[c].(chunk := data))
    case GetBuffer(c, src) => Update(Take(s, src, WantsTag(s, c, filler)), c, s.conns[c].(building := Some(src.id)))
    case CopyAndSend(c) =>
      var conn := s.conns[c];
      var b, n := conn.building.value, |conn.chunk|;
      var data := s.heap[conn.reader.value].bytes[..n];
      Update(s.(heap := s.heap[b := s.heap[b].(bytes := Overwrite(s.heap[b].bytes, data))]), c,
             conn.(building := None, chunk := [], queue := conn.queue + [Msg(b, n)], sent := conn.sent + [conn.chunk]))
    case SendStatus(c, id, cap, val) =>
      var conn := s.conns[c];
      Update(s.(heap := s.heap[id := Buf(cap, val)]), c,
             conn.(queue := conn.queue + [Msg(id, |val|)], sent := conn.sent + [val]))
    case Marshal(c) =>
      var conn := s.conns[c];
      var m := conn.queue[0];
      Update(s, c, conn.(queue := conn.queue[1..], hand := Some(m.buf),
                         out := conn.out + [Emitted(s.heap[m.buf].bytes, m.size)]))
    case PutBack(c) =>
      var id := s.conns[c].hand.value;
      var put := if s.heap[id].cap == TAG_BUFFER then s.(tagPool := s.tagPool + multiset{id})
                 else if s.heap[id].cap == SEND_BUFFER then s.(sendPool := s.sendPool + multiset{id})
                 else s;
      Update(put, c, s.conns[c].(hand := None))
    case PutReader(c) =>
      Update(s.(sendPool := s.sendPool + multiset{s.conns[c].reader.value}), c, s.conns[c].(reader := None))
    case Collect(id) =>
      if id in s.sendPool then s.(sendPool := s.sendPool - multiset{id}) else s.(tagPool := s.tagPool - multiset{id})
  }

  /** Each step comes with the file type of the transfer it belongs to. */
  function Exec(n: nat, run: seq<(Action, bool)>): Option<State> {
    if run == [] then Some(Init(n))
    else
      var before := Exec(n, run[..|run| - 1]);
      var (a, filler) := run[|run| - 1];
      if before.Some? && Enabled(before.value, filler, a) then Some(Apply(before.value, filler, a)) else None
  }

  // ----- who refers to a buffer

  function One(ref: Option<nat>, id: nat): nat {
    if ref == Some(id) then 1 else 0
  }

  function Queued(queue: seq<Msg>, id: nat): nat {
    if queue == [] then 0 else (if queue[0].buf == id then 1 else 0) + Queued(queue[1..], id)
  }

  function Refs(conn: Conn, id: nat): nat {
    One(conn.reader, id) + One(conn.building, id) + Queued(conn.queue, id) + One(conn.hand, id)
  }

  function AllRefs(conns: seq<Conn>, id: nat): nat {
    if conns == [] then 0 else AllRefs(conns[..|conns| - 1], id) + Refs(conns[|conns| - 1], id)
  }

  /** The number of references to a buffer anywhere in the system. */
  function Total(s: State, id: nat): nat {
    s.sendPool[id] + s.tagPool[id] + AllRefs(s.conns, id)
  }

  lemma {:induction false} QueuedAppend(queue: seq<Msg>, m: Msg, id: nat)
    ensures Queued(queue + [m], id) == Queued(queue, id) + (if m.buf == id then 1 else 0)
    decreases |queue|
  {
    if queue == [] {
      assert (queue + [m])[1..] == [];
    } else {
      assert (queue + [m])[1..] == queue[1..] + [m];
      QueuedAppend(queue[1..], m, id);
    }
  }

  lemma {:induction false} QueuedHas(queue: seq<Msg>, i: nat)
    requires i < |queue|
    ensures Queued(queue, queue[i].buf) > 0
    decreases |queue|
  {
    if i > 0 {
      QueuedHas(queue[1..], i - 1);
    }
  }

  lemma {:induction false} AllRefsUpdate(conns: seq<Conn>, c: nat, conn: Conn, id: nat)
    requires c < |conns|
    ensures AllRefs(conns[c := conn], id) == AllRefs(conns, id) - Refs(conns[c], id) + Refs(conn, id)
    ensures Refs(conns[c], id) <= AllRefs(conns, id)
    decreases |conns|
  {
    var k := |conns| - 1;
    if c == k {
      assert conns[c := conn][..k] == conns[..k];
    } else {
      assert conns[c := conn][..k] == conns[..k][c := conn];
      AllRefsUpdate(conns[..k], c, conn, id);
    }
  }

  lemma {:induction false} AllRefsInit(n: nat, id: nat)
    ensures AllRefs(seq(n, _ => IDLE), id) == 0
    decreases n
  {
    if n > 0 {
      assert seq(n, _ => IDLE)[..n - 1] == seq(n - 1, _ => IDLE);
      AllRefsInit(n - 1, id);
    }
  }

  /** Two connections' references are counted separately. */
  lemma {:induction false} RefsOfTwo(conns: seq<Conn>, c: nat, d: nat, id: nat)
    requires c < |conns| && d < |conns| && c != d
    ensures Refs(conns[c], id) + Refs(conns[d], id) <= AllRefs(conns, id)
    decreases |conns|
  {
    var k := |conns| - 1;
    if c == k {
      AllRefsUpdate(conns[..k], d, IDLE, id);
    } else if d == k {
      AllRefsUpdate(conns[..k], c, IDLE, id);
    } else {
      RefsOfTwo(conns[..k], c, d, id);
    }
  }

  // ----- single ownership

  ghost predicate OwnedAt(s: State, id: nat) {
    Total(s, id) <= 1 && (Total(s, id) > 0 ==> id in s.heap)
  }

  ghost predicate Owned(s: State) {
    forall id :: OwnedAt(s, id)
  }

  lemma TakeOwned(s: State, filler: bool, a: Action, id: nat)
    requires (a.GetReader? || a.GetBuffer?) && Enabled(s, filler, a) && OwnedAt(s, id)
    ensures OwnedAt(Apply(s, filler, a), id) && Total(Apply(s, filler, a), id) >= Total(s, id)
  {
    var t := Apply(s, filler, a);
    AllRefsUpdate(s.conns, a.c, t.conns[a.c], id);
    TakeCounts(s, a.src, a.GetBuffer? && WantsTag(s, a.c, filler), id);
    assert Refs(t.conns[a.c], id) == Refs(s.conns[a.c], id) + One(Some(a.src.id), id);
  }

  lemma TakeCounts(s: State, src: Source, tag: bool, id: nat)
    requires Available(s, src, if tag then s.tagPool else s.sendPool)
    ensures var t := Take(s, src, tag);
            && t.sendPool[id] + t.tagPool[id] ==
               s.sendPool[id] + s.tagPool[id] - (if src == Pooled(id) then 1 else 0)
            && (id in t.heap <==> id in s.heap || src == New(id))
            && (src == Pooled(id) ==> id in s.heap) && (src == New(id) ==> id !in s.heap)
  {
  }

  lemma SendOwned(s: State, filler: bool, a: Action, id: nat)
    requires (a.CopyAndSend? || a.SendStatus?) && Enabled(s, filler, a) && OwnedAt(s, id)
    ensures OwnedAt(Apply(s, filler, a), id) && Total(Apply(s, filler, a), id) >= Total(s, id)
  {
    var conn := s.conns[a.c];
    AllRefsUpdate(s.conns, a.c, Apply(s, filler, a).conns[a.c], id);
    QueuedAppend(conn.queue, if a.CopyAndSend? then Msg(conn.building.value, |conn.chunk|) else Msg(a.id, |a.val|), id);
  }

  lemma MarshalOwned(s: State, filler: bool, c: nat, id: nat)
    requires Enabled(s, filler, Marshal(c)) && OwnedAt(s, id)
    ensures OwnedAt(Apply(s, filler, Marshal(c)), id) && Total(Apply(s, filler, Marshal(c)), id) >= Total(s, id)
  {
    AllRefsUpdate(s.conns, c, Apply(s, filler, Marshal(c)).conns[c], id);
  }

  lemma PutBackOwned(s: State, filler: bool, c: nat, id: nat)
    requires Enabled(s, filler, PutBack(c)) && OwnedAt(s, id)
    ensures OwnedAt(Apply(s, filler, PutBack(c)), id)
    ensures s.heap[s.conns[c].hand.value].cap in {SEND_BUFFER, TAG_BUFFER} ==>
              Total(Apply(s, filler, PutBack(c)), id) >= Total(s, id)
  {
    AllRefsUpdate(s.conns, c, Apply(s, filler, PutBack(c)).conns[c], id);
  }

  lemma PutReaderOwned(s: State, filler: bool, c: nat, id: nat)
    requires Enabled(s, filler, PutReader(c)) && OwnedAt(s, id)
    ensures OwnedAt(Apply(s, filler, PutReader(c)), id) && Total(Apply(s, filler, PutReader(c)), id) >= Total(s, id)
  {
    AllRefsUpdate(s.conns, c, Apply(s, filler, PutReader(c)).conns[c], id);
  }

  /** Whoever has done with a buffer puts it back: only the pools drop any, and the sending loop those
      that belong to no pool. */
  lemma OwnedStep(s: State, filler: bool, a: Action, id: nat)
    requires Enabled(s, filler, a) && OwnedAt(s, id)
    ensures OwnedAt(Apply(s, filler, a), id)
    ensures a != Collect(id) && (a.PutBack? ==> s.heap[s.conns[a.c].hand.value].cap in {SEND_BUFFER, TAG_BUFFER}) ==>
              Total(Apply(s, filler, a), id) >= Total(s, id)
  {
    match a
    case GetReader(_, _) => TakeOwned(s, filler, a, id);
    case GetBuffer(_, _) => TakeOwned(s, filler, a, id);
    case ReadFile(c, data) => AllRefsUpdate(s.conns, c, s.conns[c].(chunk := data), id);
    case CopyAndSend(_) => SendOwned(s, filler, a, id);
    case SendStatus(_, _, _, _) => SendOwned(s, filler, a, id);
    case Marshal(c) => MarshalOwned(s, filler, c, id);
    case PutBack(c) => PutBackOwned(s, filler, c, id);
    case PutReader(c) => PutReaderOwned(s, filler, c, id);
    case Collect(_) =>
  }

  /** Buffer ownership: in every run each buffer has at most one owner among the pools, the
      messages on their way and the file readers. */
  lemma {:induction false} SingleOwner(n: nat, run: seq<(Action, bool)>)
    ensures Exec(n, run).Some? ==> Owned(Exec(n, run).value)
    decreases |run|
  {
    if run == [] {
      forall id ensures OwnedAt(Init(n), id) {
        AllRefsInit(n, id);
      }
    } else {
      var init := run[..|run| - 1];
      SingleOwner(n, init);
      if Exec(n, run).Some? {
        forall id ensures OwnedAt(Exec(n, run).value, id) {
          OwnedStep(Exec(n, init).value, run[|run| - 1].1, run[|run| - 1].0, id);
        }
      }
    }
  }

  // ----- contents

  /** A buffer with the capacity of a pool has the length that pool's users rely on. */
  ghost predicate WellShaped(b: Buf) {
    (b.cap == SEND_BUFFER ==> |b.bytes| == SEND_BUFFER) && (b.cap == TAG_BUFFER ==> |b.bytes| == TAG_BUFFER)
  }

  ghost predicate Shaped(s: State) {
    && (forall id :: id in s.heap ==> WellShaped(s.heap[id]))
    && (forall id :: id in s.sendPool ==> id in s.heap && s.heap[id].cap == SEND_BUFFER)
    && (forall id :: id in s.tagPool ==> id in s.heap && s.heap[id].cap == TAG_BUFFER)
  }

  /** A status value whose capacity happens to be that of a pool also has its length. */
  ghost predicate Tidy(a: Action) {
    a.SendStatus? ==> WellShaped(Buf(a.cap, a.val))
  }

  /** The buffer shows the value in its first bytes. */
  predicate Holds(heap: map<nat, Buf>, id: nat, value: seq<byte>) {
    id in heap && value <= heap[id].bytes
  }

  ghost predicate Emits(e: Emitted, value: seq<byte>) {
    e.size == |value| && value <= e.bytes
  }

  ghost predicate ConnFaithful(heap: map<nat, Buf>, conn: Conn) {
    && (conn.reader.Some? ==> Holds(heap, conn.reader.value, conn.chunk) && heap[conn.reader.value].cap == SEND_BUFFER)
    && (conn.reader == None ==> conn.chunk == [])
    && (conn.building.Some? ==>
          conn.chunk != [] && conn.building.value in heap && |conn.chunk| <= |heap[conn.building.value].bytes|)
    && |conn.out| + |conn.queue| == |conn.sent|
    && (forall i :: 0 <= i < |conn.out| ==> Emits(conn.out[i], conn.sent[i]))
    && (forall j :: 0 <= j < |conn.queue| ==>
          && conn.queue[j].size == |conn.sent[|conn.out| + j]|
          && Holds(heap, conn.queue[j].buf, conn.sent[|conn.out| + j]))
  }

  ghost predicate Faithful(s: State) {
    Shaped(s) && forall c :: 0 <= c < |s.conns| ==> ConnFaithful(s.heap, s.conns[c])
  }

  /** A connection does not notice writes to buffers it does not refer to. */
  lemma Frame(heap: map<nat, Buf>, heap': map<nat, Buf>, conn: Conn)
    requires ConnFaithful(heap, conn)
    requires forall id :: id in heap && Refs(conn, id) > 0 ==> id in heap' && heap'[id] == heap[id]
    ensures ConnFaithful(heap', conn)
  {
    forall j | 0 <= j < |conn.queue| ensures Refs(conn, conn.queue[j].buf) > 0 {
      QueuedHas(conn.queue, j);
    }
  }

  /** A buffer of one connection is nobody else's. */
  lemma Exclusive(s: State, c: nat, d: nat, id: nat)
    requires Owned(s) && c < |s.conns| && d < |s.conns| && c != d && Refs(s.conns[c], id) > 0
    ensures Refs(s.conns[d], id) == 0
  {
    RefsOfTwo(s.conns, c, d, id);
    assert OwnedAt(s, id);
  }

  lemma AtMostOnce(s: State, c: nat, id: nat)
    requires Owned(s) && c < |s.conns|
    ensures Refs(s.conns[c], id) <= 1
    ensures Refs(s.conns[c], id) > 0 ==> id in s.heap && id !in s.sendPool && id !in s.tagPool
  {
    AllRefsUpdate(s.conns, c, IDLE, id);
    assert OwnedAt(s, id);
  }

  lemma OthersFaithful(s: State, t: State, c: nat, id: nat)
    requires Owned(s) && Faithful(s) && c < |s.conns| && (Refs(s.conns[c], id) > 0 || id !in s.heap)
    requires forall x :: x in s.heap && x != id ==> x in t.heap && t.heap[x] == s.heap[x]
    requires |t.conns| == |s.conns| && forall d :: 0 <= d < |s.conns| && d != c ==> t.conns[d] == s.conns[d]
    ensures forall d :: 0 <= d < |t.conns| && d != c ==> ConnFaithful(t.heap, t.conns[d])
  {
    forall d | 0 <= d < |t.conns| && d != c ensures ConnFaithful(t.heap, t.conns[d]) {
      if id in s.heap {
        Exclusive(s, c, d, id);
      }
      Frame(s.heap, t.heap, s.conns[d]);
    }
  }

  lemma ReadFaithful(s: State, filler: bool, c: nat, data: seq<byte>)
    requires Owned(s) && Faithful(s) && Enabled(s, filler, ReadFile(c, data))
    ensures Faithful(Apply(s, filler, ReadFile(c, data)))
  {
    var conn, t := s.conns[c], Apply(s, filler, ReadFile(c, data));
    var id := conn.reader.value;
    AtMostOnce(s, c, id);
    OthersFaithful(s, t, c, id);
    forall j | 0 <= j < |conn.queue| ensures conn.queue[j].buf != id {
      QueuedHas(conn.queue, j);
    }
  }

  lemma CopyFaithful(s: State, filler: bool, c: nat)
    requires Owned(s) && Faithful(s) && Enabled(s, filler, CopyAndSend(c))
    ensures Faithful(Apply(s, filler, CopyAndSend(c)))
  {
    var conn, t := s.conns[c], Apply(s, filler, CopyAndSend(c));
    var id := conn.building.value;
    AtMostOnce(s, c, id);
    OthersFaithful(s, t, c, id);
    forall j | 0 <= j < |conn.queue| ensures conn.queue[j].buf != id {
      QueuedHas(conn.queue, j);
    }
    assert ConnFaithful(s.heap, conn);
    CopyOwn(s.heap, conn);
    Queue(t.heap, conn.(building := None, chunk := []), id, conn.chunk);
  }

  /** The copying connection itself: its buffer now holds the chunk, the rest is untouched. */
  lemma CopyOwn(heap: map<nat, Buf>, conn: Conn)
    requires ConnFaithful(heap, conn) && conn.building.Some? && conn.reader.Some?
    requires forall j :: 0 <= j < |conn.queue| ==> conn.queue[j].buf != conn.building.value
    ensures var id := conn.building.value;
            var data := heap[conn.reader.value].bytes[..|conn.chunk|];
            var heap' := heap[id := heap[id].(bytes := Overwrite(heap[id].bytes, data))];
            Holds(heap', id, conn.chunk) && ConnFaithful(heap', conn.(building := None, chunk := []))
  {
    assert heap[conn.reader.value].bytes[..|conn.chunk|] == conn.chunk;
  }

  lemma UpdateFaithful(s: State, c: nat, conn: Conn)
    requires Faithful(s) && c < |s.conns| && ConnFaithful(s.heap, conn)
    ensures Faithful(Update(s, c, conn))
  {
  }

  lemma GrownFaithful(s: State, t: State)
    requires Faithful(s) && t.conns == s.conns && Shaped(t)
    requires forall x :: x in s.heap ==> x in t.heap && t.heap[x] == s.heap[x]
    ensures Faithful(t)
  {
    forall d | 0 <= d < |t.conns| ensures ConnFaithful(t.heap, t.conns[d]) {
      Frame(s.heap, t.heap, s.conns[d]);
    }
  }

  lemma StatusFaithful(s: State, filler: bool, c: nat, id: nat, cap: nat, val: seq<byte>)
    requires Faithful(s) && Enabled(s, filler, SendStatus(c, id, cap, val)) && Tidy(SendStatus(c, id, cap, val))
    ensures Faithful(Apply(s, filler, SendStatus(c, id, cap, val)))
  {
    var grown := s.(heap := s.heap[id := Buf(cap, val)]);
    GrownFaithful(s, grown);
    Queue(grown.heap, s.conns[c], id, val);
    var conn := s.conns[c];
    UpdateFaithful(grown, c, conn.(queue := conn.queue + [Msg(id, |val|)], sent := conn.sent + [val]));
  }

  lemma Queue(heap: map<nat, Buf>, conn: Conn, id: nat, val: seq<byte>)
    requires ConnFaithful(heap, conn) && Holds(heap, id, val)
    ensures ConnFaithful(heap, conn.(queue := conn.queue + [Msg(id, |val|)], sent := conn.sent + [val]))
  {
  }

  lemma TakeShaped(s: State, src: Source, tag: bool)
    requires Shaped(s) && Available(s, src, if tag then s.tagPool else s.sendPool)
    ensures var t := Take(s, src, tag);
            && Shaped(t) && src.id in t.heap
            && |t.heap[src.id].bytes| == t.heap[src.id].cap == (if tag then TAG_BUFFER else SEND_BUFFER)
            && forall x :: x in s.heap ==> x in t.heap && t.heap[x] == s.heap[x]
  {
  }

  lemma GetReaderFaithful(s: State, filler: bool, c: nat, src: Source)
    requires Faithful(s) && Enabled(s, filler, GetReader(c, src))
    ensures Faithful(Apply(s, filler, GetReader(c, src)))
  {
    var u := Take(s, src, false);
    TakeShaped(s, src, false);
    GrownFaithful(s, u);
    var conn := s.conns[c];
    assert ConnFaithful(u.heap, conn);
    UpdateFaithful(u, c, conn.(reader := Some(src.id)));
  }

  lemma GetBufferFaithful(s: State, filler: bool, c: nat, src: Source)
    requires Faithful(s) && Enabled(s, filler, GetBuffer(c, src))
    ensures Faithful(Apply(s, filler, GetBuffer(c, src)))
  {
    var conn, tag := s.conns[c], WantsTag(s, c, filler);
    var u := Take(s, src, tag);
    TakeShaped(s, src, tag);
    GrownFaithful(s, u);
    ChunkFits(s, c);
    BuildingFaithful(u.heap, conn, src.id);
    UpdateFaithful(u, c, conn.(building := Some(src.id)));
  }

  /** A chunk is never longer than the buffer it was read into. */
  lemma ChunkFits(s: State, c: nat)
    requires Faithful(s) && c < |s.conns|
    ensures |s.conns[c].chunk| <= SEND_BUFFER
  {
    assert ConnFaithful(s.heap, s.conns[c]);
  }

  lemma BuildingFaithful(heap: map<nat, Buf>, conn: Conn, id: nat)
    requires ConnFaithful(heap, conn) && conn.chunk != [] && id in heap && |conn.chunk| <= |heap[id].bytes|
    ensures ConnFaithful(heap, conn.(building := Some(id)))
  {
  }

  lemma MarshalFaithful(s: State, filler: bool, c: nat)
    requires Faithful(s) && Enabled(s, filler, Marshal(c))
    ensures Faithful(Apply(s, filler, Marshal(c)))
  {
    assert ConnFaithful(s.heap, s.conns[c]);
    UpdateFaithful(s, c, Apply(s, filler, Marshal(c)).conns[c]);
  }

  lemma PutBackFaithful(s: State, filler: bool, c: nat)
    requires Faithful(s) && Enabled(s, filler, PutBack(c))
    ensures Faithful(Apply(s, filler, PutBack(c)))
  {
    assert ConnFaithful(s.heap, s.conns[c]);
    UpdateFaithful(s, c, s.conns[c].(hand := None));
  }

  lemma PutReaderFaithful(s: State, filler: bool, c: nat)
    requires Faithful(s) && Enabled(s, filler, PutReader(c))
    ensures Faithful(Apply(s, filler, PutReader(c)))
  {
    assert ConnFaithful(s.heap, s.conns[c]);
    UpdateFaithful(s, c, s.conns[c].(reader := None));
  }

  lemma FaithfulStep(s: State, filler: bool, a: Action)
    requires Owned(s) && Faithful(s) && Enabled(s, filler, a) && Tidy(a)
    ensures Faithful(Apply(s, filler, a))
  {
    match a
    case GetReader(c, src) => GetReaderFaithful(s, filler, c, src);
    case GetBuffer(c, src) => GetBufferFaithful(s, filler, c, src);
    case ReadFile(c, data) => ReadFaithful(s, filler, c, data);
    case CopyAndSend(c) => CopyFaithful(s, filler, c);
    case SendStatus(c, id, cap, val) => StatusFaithful(s, filler, c, id, cap, val);
    case Marshal(c) => MarshalFaithful(s, filler, c);
    case PutBack(c) => PutBackFaithful(s, filler, c);
    case PutReader(c) => PutReaderFaithful(s, filler, c);
    case Collect(_) =>
  }

  ghost predicate AllTidy(run: seq<(Action, bool)>) {
    forall i :: 0 <= i < |run| ==> Tidy(run[i].0)
  }

  lemma {:induction false} FaithfulAlways(n: nat, run: seq<(Action, bool)>)
    requires AllTidy(run) && Exec(n, run).Some?
    ensures Faithful(Exec(n, run).value)
    decreases |run|
  {
    if run != [] {
      var init := run[..|run| - 1];
      FaithfulAlways(n, init);
      SingleOwner(n, init);
      FaithfulStep(Exec(n, init).value, run[|run| - 1].1, run[|run| - 1].0);
    }
  }

  /** No stale bytes: what a connection encodes shows, in the part that is meant, exactly the
      chunks handed to it, in order, whatever the recycled buffers held before. */
  lemma EncodedAsSent(n: nat, run: seq<(Action, bool)>, c: nat)
    requires AllTidy(run) && Exec(n, run).Some? && c < |Exec(n, run).value.conns|
    ensures var conn := Exec(n, run).value.conns[c];
            && |conn.out| <= |conn.sent|
            && forall i :: 0 <= i < |conn.out| ==>
                 conn.out[i].size == |conn.sent[i]| <= |conn.out[i].bytes| &&
                 conn.out[i].bytes[..conn.out[i].size] == conn.sent[i]
  {
    FaithfulAlways(n, run);
    assert ConnFaithful(Exec(n, run).value.heap, Exec(n, run).value.conns[c]);
  }

  // ----- a status value in the wrong pool

  ghost predicate Reachable(n: nat, s: State) {
    exists run :: Exec(n, run) == Some(s)
  }

  lemma Then(n: nat, s: State, filler: bool, a: Action) returns (t: State)
    requires Reachable(n, s) && Enabled(s, filler, a)
    ensures t == Apply(s, filler, a) && Reachable(n, t)
  {
    t := Apply(s, filler, a);
    var run :| Exec(n, run) == Some(s);
    assert (run + [(a, filler)])[..|run|] == run;
    assert Exec(n, run + [(a, filler)]) == Some(t);
  }

  function PoolOf(s: State, cap: nat): multiset<nat> {
    if cap == TAG_BUFFER then s.tagPool else s.sendPool
  }

  /** After the status message went out, its bytes sit in the pool of its capacity. */
  lemma StatusRecycled(cap: nat, val: seq<byte>) returns (s: State)
    requires !WellShaped(Buf(cap, val)) && |val| <= cap
    ensures Reachable(1, s) && s.heap == map[0 := Buf(cap, val)] && 0 in PoolOf(s, cap)
    ensures |s.conns| == 1 && s.conns[0].(sent := [], out := []) == IDLE && |s.conns[0].out| == 1
  {
    assert Exec(1, []) == Some(Init(1));
    var s1 := Then(1, Init(1), false, SendStatus(0, 0, cap, val));
    var s2 := Then(1, s1, false, Marshal(0));
    s := Then(1, s2, false, PutBack(0));
  }

  /** A chunk of that capacity is then read. */
  lemma StatusRecycledThenRead(cap: nat, val: seq<byte>) returns (s: State)
    requires !WellShaped(Buf(cap, val)) && |val| <= cap
    ensures Reachable(1, s) && s.heap.Keys == {0, 1} && s.heap[0] == Buf(cap, val) && 0 in PoolOf(s, cap)
    ensures |s.heap[1].bytes| == SEND_BUFFER
    ensures |s.conns| == 1 && |s.conns[0].out| == 1 && |s.conns[0].chunk| == cap
    ensures s.conns[0].(sent := [], out := [], chunk := []) == IDLE.(reader := Some(1))
  {
    var s3 := StatusRecycled(cap, val);
    var s4 := Then(1, s3, false, GetReader(0, New(1)));
    assert s4.heap[1] == Zeroed(SEND_BUFFER);
    s := Then(1, s4, false, ReadFile(0, seq<byte>(cap, _ => 1)));
    assert s.heap[0] == Buf(cap, val) && |s.heap[1].bytes| == SEND_BUFFER;
  }

  /** The recycled buffer is taken for the chunk, which does not fit. */
  lemma StatusReused(s: State, cap: nat, val: seq<byte>) returns (t: State)
    requires !WellShaped(Buf(cap, val)) && |val| <= cap
    requires Reachable(1, s) && s.heap.Keys == {0, 1} && s.heap[0] == Buf(cap, val) && 0 in PoolOf(s, cap)
    requires |s.heap[1].bytes| == SEND_BUFFER
    requires |s.conns| == 1 && |s.conns[0].out| == 1 && |s.conns[0].chunk| == cap
    requires s.conns[0].(sent := [], out := [], chunk := []) == IDLE.(reader := Some(1))
    ensures Reachable(1, t) && |t.conns| == 1 && t.conns[0].queue == [Msg(0, cap)] && t.conns[0].hand == None
    ensures |t.conns[0].out| == 1 && 0 in t.heap && |t.heap[0].bytes| == |val|
  {
    var s6 := Then(1, s, cap == TAG_BUFFER, GetBuffer(0, Pooled(0)));
    t := Then(1, s6, false, CopyAndSend(0));
  }

  /** The tidiness condition is needed, for both pools: every status value that is not tidy can be
      recycled into a message that announces more bytes than it has. */
  lemma UntidyStatusBreaks(cap: nat, val: seq<byte>)
    requires !WellShaped(Buf(cap, val)) && |val| <= cap
    ensures exists s :: Reachable(1, s) && |s.conns| == 1 && |s.conns[0].out| == 2 &&
                        s.conns[0].out[1].size > |s.conns[0].out[1].bytes|
  {
    var s5 := StatusRecycledThenRead(cap, val);
    var s7 := StatusReused(s5, cap, val);
    var s8 := Then(1, s7, false, Marshal(0));
    assert s8.conns[0].out[1] == Emitted(s7.heap[0].bytes, cap);
  }
}
