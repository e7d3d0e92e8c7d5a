/** Messages on a TCP stream: each is a 4-byte magic, a 4-byte big-endian length and JSON.
    The stream may be cut after any byte, and a read may return fewer bytes than asked for. */
module Framing {
  import opened Wrappers
  import opened Numerals
  import opened Messages

  const HEAD_FILE: seq<byte> := [0x63, 0x31, 0x30, 0x30]   // "c100"
  const HEAD_FILLER: seq<byte> := [0x63, 0x31, 0x30, 0x31] // "c101"
  const WORD := 0x1_0000_0000

  /** JSON encoding is library code with a left inverse. */
  ghost predicate LeftInverse(enc: Message -> seq<byte>, dec: seq<byte> -> Option<Message>) {
    forall m :: dec(enc(m)) == Some(m)
  }

  function PutUint32(n: nat): (bs: seq<byte>)
    requires n < WORD
    ensures |bs| == 4
  {
    [n / 0x100_0000, n / 0x1_0000 % 256, n / 0x100 % 256, n % 256]
  }

  function Uint32(bs: seq<byte>): (n: nat)
    requires |bs| == 4
  {
    bs[0] as nat * 0x100_0000 + bs[1] as nat * 0x1_0000 + bs[2] as nat * 0x100 + bs[3] as nat
  }

  lemma Uint32RoundTrip(n: nat)
    requires n < WORD
    ensures Uint32(PutUint32(n)) == n
  {
    var q1 := n / 0x100;
    var q2 := q1 / 0x100;
    assert n / 0x1_0000 == q2 && n / 0x100_0000 == q2 / 0x100;
    assert n == q1 * 0x100 + n % 0x100 && q1 == q2 * 0x100 + q1 % 0x100;
  }

  /** The length field is a big-endian number. */
  lemma Uint32IsBigEndian(bs: seq<byte>)
    requires |bs| == 4
    ensures Uint32(bs) == SetBytes(bs)
  {
    SetBytesIsBigEndian(bs[..3], bs[3..], bs[3]);
    SetBytesIsBigEndian(bs[..2], bs[2..3], bs[2]);
    SetBytesIsBigEndian(bs[..1], bs[1..2], bs[1]);
    SetBytesIsBigEndian([], [], bs[0]);
    assert bs[..3] + bs[3..] == bs && bs[..2] + bs[2..3] == bs[..3] && bs[..1] + bs[1..2] == bs[..2];
    assert bs[3..] == [bs[3]] && bs[2..3] == [bs[2]] && bs[1..2] == [bs[1]] && bs[..1] == [bs[0]];
  }

  function Frame(data: seq<byte>): (f: seq<byte>)
    ensures |f| == 8 + |data|
  {
    HEAD_FILLER + PutUint32(|data| % WORD) + data
  }

  function Frames(enc: Message -> seq<byte>, ms: seq<Message>): seq<byte> {
    if ms == [] then [] else Frame(enc(ms[0])) + Frames(enc, ms[1..])
  }

  /** What fits in the send buffer behind magic and length. */
  predicate Fits(enc: Message -> seq<byte>, m: Message) {
    |enc(m)| <= READ_BUFFER - 8
  }

  predicate AllFit(enc: Message -> seq<byte>, ms: seq<Message>) {
    forall i :: 0 <= i < |ms| ==> Fits(enc, ms[i])
  }

  /** The messages before the first one that does not fit. */
  function Fitting(enc: Message -> seq<byte>, ms: seq<Message>): (fs: seq<Message>)
    ensures fs <= ms && AllFit(enc, fs)
    ensures AllFit(enc, ms) ==> fs == ms
  {
    if ms == [] || !Fits(enc, ms[0]) then [] else [ms[0]] + Fitting(enc, ms[1..])
  }

  // ----- sending

  /** The sending loop's connection and its buffer, reused for every message. */
  class Sender {
    const sendBuf: array<byte>
    var wire: seq<byte>  // bytes the connection has accepted
    var budget: nat      // bytes it will still accept before it breaks
    var closed: bool

    ghost predicate Valid()
      reads this, sendBuf
    {
      sendBuf.Length == READ_BUFFER && sendBuf[..4] == HEAD_FILLER
    }

    constructor (buf: array<byte>, budget: nat)
      requires buf.Length == READ_BUFFER
      modifies buf
      ensures Valid() && sendBuf == buf && wire == [] && this.budget == budget && !closed
    {
      sendBuf, wire, this.budget, closed := buf, [], budget, false;
      new;
      CopyInto(buf, 0, HEAD_FILLER);
      assert buf[..4] == buf[0..4];
    }

    /** conn.Write: everything, or what the connection still takes and an error. */
    method Write(bs: seq<byte>) returns (ok: bool)
      modifies this`wire, this`budget
      ensures ok <==> |bs| <= old(budget)
      ensures wire == old(wire) + (if ok then bs else bs[..old(budget)])
      ensures budget == if ok then old(budget) - |bs| else 0
    {
      ok := |bs| <= budget;
      wire := wire + if ok then bs else bs[..budget];
      budget := if ok then budget - |bs| else 0;
    }

    /** One round of the loop. A message that does not fit makes the slice expression panic. */
    method SendOne(data: seq<byte>)
      requires Valid() && !closed
      modifies this, sendBuf
      ensures Valid()
      ensures |data| > READ_BUFFER - 8 ==> closed && wire == old(wire) && budget == old(budget)
      ensures |data| <= READ_BUFFER - 8 ==>
                var f := Frame(data);
                && (closed <==> |f| > old(budget))
                && wire == old(wire) + (if closed then f[..old(budget)] else f)
                && budget == (if closed then 0 else old(budget) - |f|)
    {
      CopyInto(sendBuf, 4, PutUint32(|data| % WORD));
      assert sendBuf[..4] == HEAD_FILLER && sendBuf[4..8] == PutUint32(|data| % WORD);
      var k := if |data| <= READ_BUFFER - 8 then |data| else READ_BUFFER - 8;
      CopyInto(sendBuf, 8, data[..k]);
      assert sendBuf[..4] == HEAD_FILLER && sendBuf[4..8] == PutUint32(|data| % WORD);
      if |data| > READ_BUFFER - 8 {
        closed := true;
        return;
      }
      assert sendBuf[..8 + |data|] == Frame(data) by {
        assert sendBuf[8..8 + |data|] == data[..k] == data;
      }
      var ok := Write(sendBuf[..8 + |data|]);
      closed := !ok;
    }

    /** One message of the list still to be sent. */
    method SendNext(rest: seq<Message>, enc: Message -> seq<byte>)
      requires Valid() && !closed && rest != []
      modifies this, sendBuf
      ensures Valid()
      ensures closed ==> wire == Upto(old(wire) + Stream(enc, rest), |old(wire)| + old(budget))
      ensures !closed ==> Fits(enc, rest[0]) && |wire| + budget == |old(wire)| + old(budget)
      ensures !closed ==> wire + Stream(enc, rest[1..]) == old(wire) + Stream(enc, rest)
    {
      FirstOfRest(enc, rest);
      if Fits(enc, rest[0]) {
        Regroup(wire, Frame(enc(rest[0])), Stream(enc, rest[1..]), wire + Stream(enc, rest), budget);
      } else {
        assert wire + [] == wire;
      }
      SendOne(enc(rest[0]));
    }

    /** Sends a list of messages: the stream gets the frames of the messages that fit, up to
        the point where the connection broke. */
    method SendAll(ms: seq<Message>, enc: Message -> seq<byte>)
      requires Valid() && !closed && wire == []
      modifies this, sendBuf
      ensures Valid()
      ensures wire == Upto(Stream(enc, ms), old(budget))
      ensures !closed ==> AllFit(enc, ms) && |wire| <= old(budget)
    {
      ghost var total := budget;
      assert ms[0..] == ms;
      for i := 0 to |ms|
        invariant Valid() && !closed && |wire| + budget == total
        invariant wire + Stream(enc, ms[i..]) == Stream(enc, ms)
        invariant forall j :: 0 <= j < i ==> Fits(enc, ms[j])
      {
        assert ms[i..][1..] == ms[i + 1..];
        SendNext(ms[i..], enc);
        if closed {
          return;
        }
      }
    }
  }

  /** What the sender means to put on the wire. */
  function Stream(enc: Message -> seq<byte>, ms: seq<Message>): seq<byte> {
    Frames(enc, Fitting(enc, ms))
  }

  lemma Regroup(sent: seq<byte>, f: seq<byte>, more: seq<byte>, all: seq<byte>, left: nat)
    requires sent + (f + more) == all
    ensures (sent + f) + more == all
    ensures left < |f| ==> sent + f[..left] == Upto(all, |sent| + left)
  {
  }

  lemma FirstOfRest(enc: Message -> seq<byte>, rest: seq<Message>)
    requires rest != []
    ensures Stream(enc, rest) ==
            if Fits(enc, rest[0]) then Frame(enc(rest[0])) + Stream(enc, rest[1..]) else []
  {
    if Fits(enc, rest[0]) {
      assert Fitting(enc, rest)[1..] == Fitting(enc, rest[1..]);
    }
  }

  function Upto(bs: seq<byte>, n: nat): seq<byte> {
    if n < |bs| then bs[..n] else bs
  }

  /** The built-in copy into a buffer at an offset. */
  method CopyInto(a: array<byte>, at: nat, bs: seq<byte>)
    requires at + |bs| <= a.Length
    modifies a
    ensures a[at..at + |bs|] == bs
    ensures forall i :: 0 <= i < a.Length && !(at <= i < at + |bs|) ==> a[i] == old(a[i])
  {
    forall i | 0 <= i < |bs| {
      a[at + i] := bs[i];
    }
  }

  // ----- receiving

  /** The messages a stream holds; reading stops for good at the first thing that is not a
      complete well-formed frame. */
  function Parse(stream: seq<byte>, magicRead: bool, dec: seq<byte> -> Option<Message>): seq<Message>
    decreases |stream|, !magicRead
  {
    if !magicRead then
      if |stream| < 4 || (stream[..4] != HEAD_FILLER && stream[..4] != HEAD_FILE) then []
      else Parse(stream[4..], true, dec)
    else if |stream| < 4 then []
    else
      var n := Uint32(stream[..4]);
      if n > READ_BUFFER || |stream| < 4 + n then []
      else
        var m := dec(stream[4..4 + n]);
        if m == None then [] else [m.value] + Parse(stream[4 + n..], false, dec)
  }

  datatype ReadError = NoError | EOF | UnexpectedEOF

  /** What the peer sends before the connection ends. Each read takes some of it. */
  class Conn {
    var pending: seq<byte>

    constructor (pending: seq<byte>)
      ensures this.pending == pending
    {
      this.pending := pending;
    }

    /** Any non-empty part of what is asked for, or nothing at the end. */
    method Read(max: nat) returns (bs: seq<byte>)
      requires max > 0
      modifies this
      ensures bs + pending == old(pending)
      ensures |bs| <= max
      ensures bs == [] <==> old(pending) == []
    {
      if pending == [] {
        return [];
      }
      var k :| 1 <= k <= max && k <= |pending|;
      bs, pending := pending[..k], pending[k..];
    }

    /** io.ReadAtLeast and io.ReadFull for n bytes. */
    method ReadFull(n: nat) returns (bs: seq<byte>, err: ReadError)
      modifies this
      ensures bs + pending == old(pending)
      ensures n <= |old(pending)| ==> err == NoError && |bs| == n
      ensures n > |old(pending)| ==> pending == [] && err == if old(pending) == [] then EOF else UnexpectedEOF
    {
      bs, err := [], NoError;
      while |bs| < n
        invariant |bs| <= n && bs + pending == old(pending)
        decreases n - |bs|
      {
        var more := Read(n - |bs|);
        if more == [] {
          return bs, if bs == [] then EOF else UnexpectedEOF;
        }
        bs := bs + more;
      }
    }

    /** The part of a round behind the magic: length, then data, then decoding. */
    method ReadBody(dec: seq<byte> -> Option<Message>) returns (m: Option<Message>)
      modifies this
      ensures m == None ==> Parse(old(pending), true, dec) == []
      ensures m.Some? ==> |pending| < |old(pending)| &&
                          Parse(old(pending), true, dec) == [m.value] + Parse(pending, false, dec)
    {
      ghost var body := pending;
      var header, err := ReadFull(4);
      if err != NoError {
        return None;
      }
      assert header == body[..4] && pending == body[4..];
      var msgSize := Uint32(header);
      if msgSize > READ_BUFFER {
        return None;
      }
      var bs, err2 := ReadFull(msgSize);
      if err2 != NoError {
        return None;
      }
      assert bs == body[4..4 + msgSize] && pending == body[4 + msgSize..];
      return dec(bs);
    }

    /** The magic of a round. At the end of the stream the loop tries again later. */
    method ReadMagic(dec: seq<byte> -> Option<Message>) returns (ok: bool, atEnd: bool)
      modifies this
      ensures ok ==> !atEnd && |pending| < |old(pending)| &&
                     Parse(old(pending), false, dec) == Parse(pending, true, dec)
      ensures !ok ==> Parse(old(pending), false, dec) == []
      ensures atEnd ==> pending == old(pending)
    {
      ghost var before := pending;
      var header, err := ReadFull(4);
      if err != NoError {
        return false, err == EOF;
      }
      assert header == before[..4] && pending == before[4..];
      return header == HEAD_FILLER || header == HEAD_FILE, false;
    }

    /** The reading loop. `magicRead` says that the first magic has been taken off already.
        The loop may also stop because the connection was closed on this side. */
    method ReadMsg(magicRead: bool, dec: seq<byte> -> Option<Message>) returns (recv: seq<Message>, closed: bool)
      modifies this
      ensures recv <= Parse(old(pending), magicRead, dec)
      ensures !closed ==> recv == Parse(old(pending), magicRead, dec)
    {
      var flag, waittime := magicRead, 0;
      recv, closed := [], false;
      while true
        invariant 0 <= waittime < 10
        invariant recv + Parse(pending, flag, dec) == Parse(old(pending), magicRead, dec)
        decreases |pending|, 10 - waittime
      {
        if * {
          return recv, true;
        }
        if !flag {
          var ok, atEnd := ReadMagic(dec);
          if atEnd {
            waittime := waittime + 1;
            if waittime >= 10 {
              return;
            }
            continue;
          }
          if !ok {
            return;
          }
        }
        flag := false;
        var m := ReadBody(dec);
        if m == None {
          return;
        }
        recv := recv + [m.value];
      }
    }
  }

  // ----- what is a frame

  /** The stream begins with a frame that holds this message: either magic, the length, and the data. */
  ghost predicate Begins(stream: seq<byte>, magic: seq<byte>, data: seq<byte>, rest: seq<byte>) {
    && (magic == HEAD_FILLER || magic == HEAD_FILE) && |data| <= READ_BUFFER
    && stream == magic + PutUint32(|data|) + data + rest
  }

  /** The loop reads a message off a stream exactly if it begins with a whole frame of either magic, of no
      more than a buffer's length, that can be decoded; and goes on behind it. */
  lemma ParseExactly(stream: seq<byte>, dec: seq<byte> -> Option<Message>)
    ensures forall magic, data, rest :: Begins(stream, magic, data, rest) && dec(data).Some? ==>
              Parse(stream, false, dec) == [dec(data).value] + Parse(rest, false, dec)
    ensures Parse(stream, false, dec) != [] ==>
              exists magic, data, rest :: Begins(stream, magic, data, rest) && dec(data).Some?
  {
    forall magic, data, rest | Begins(stream, magic, data, rest) && dec(data).Some?
      ensures Parse(stream, false, dec) == [dec(data).value] + Parse(rest, false, dec)
    {
      Parts(magic, PutUint32(|data|), data, rest);
      Uint32RoundTrip(|data|);
    }
    if Parse(stream, false, dec) != [] {
      var data := ParsedFrame(stream, dec);
    }
  }

  lemma ParsedFrame(stream: seq<byte>, dec: seq<byte> -> Option<Message>) returns (data: seq<byte>)
    requires Parse(stream, false, dec) != []
    ensures |stream| >= 8 + |data| && Begins(stream, stream[..4], data, stream[8 + |data|..]) && dec(data).Some?
  {
    var body := stream[4..];
    assert Parse(stream, false, dec) == Parse(body, true, dec);
    var n := Uint32(body[..4]);
    data := body[4..4 + n];
    LengthOf(body[..4]);
    Rejoined(stream, n);
  }

  lemma Rejoined(stream: seq<byte>, n: nat)
    requires |stream| >= 8 + n
    ensures var body := stream[4..]; stream == stream[..4] + body[..4] + body[4..4 + n] + stream[8 + n..]
  {
    var body := stream[4..];
    var whole := stream[..4] + body[..4] + body[4..4 + n] + stream[8 + n..];
    assert |whole| == |stream| && forall i :: 0 <= i < |whole| ==> whole[i] == stream[i];
  }

  /** Four bytes are the length field of the number they hold. */
  lemma LengthOf(bs: seq<byte>)
    requires |bs| == 4
    ensures PutUint32(Uint32(bs)) == bs
  {
    var n := Uint32(bs);
    var (x, y) := (bs[0] as nat * 0x100 + bs[1] as nat, bs[2] as nat);
    QuotientUnique((x * 0x100 + y), bs[3], 0x100);
    QuotientUnique(x, y, 0x100);
    QuotientUnique(bs[0], bs[1], 0x100);
    assert n == (x * 0x100 + y) * 0x100 + bs[3] as nat;
    assert n / 0x100 == x * 0x100 + y && n / 0x1_0000 == n / 0x100 / 0x100 && n / 0x100_0000 == n / 0x1_0000 / 0x100;
  }

  // ----- round trips

  /** How many whole frames lie in the first k bytes. */
  function WholeFrames(enc: Message -> seq<byte>, ms: seq<Message>, k: nat): (n: nat)
    ensures n <= |ms|
  {
    if ms == [] || k < |Frame(enc(ms[0]))| then 0
    else 1 + WholeFrames(enc, ms[1..], k - |Frame(enc(ms[0]))|)
  }

  lemma ParseOneFrame(enc: Message -> seq<byte>, dec: seq<byte> -> Option<Message>, m: Message, rest: seq<byte>)
    requires LeftInverse(enc, dec) && Fits(enc, m)
    ensures Parse(Frame(enc(m)) + rest, false, dec) == [m] + Parse(rest, false, dec)
  {
    var data := enc(m);
    FrameParts(data, rest);
    Uint32RoundTrip(|data|);
    assert dec(enc(m)) == Some(m);
  }

  lemma FrameParts(data: seq<byte>, rest: seq<byte>)
    requires |data| < WORD
    ensures var stream := Frame(data) + rest;
            var body := stream[4..];
            && stream[..4] == HEAD_FILLER && body[..4] == PutUint32(|data|)
            && body[4..4 + |data|] == data && body[4 + |data|..] == rest
  {
    assert |data| % WORD == |data|;
    Parts(HEAD_FILLER, PutUint32(|data|), data, rest);
  }

  lemma Parts(head: seq<byte>, length: seq<byte>, data: seq<byte>, rest: seq<byte>)
    requires |head| == |length| == 4
    ensures var stream := head + length + data + rest;
            var body := stream[4..];
            && stream[..4] == head && body[..4] == length
            && body[4..4 + |data|] == data && body[4 + |data|..] == rest
  {
    var stream := head + length + data + rest;
    var body, n := stream[4..], 4 + |data|;
    assert body == length + data + rest by {
      SuffixAt(stream, length + data + rest, 4);
    }
    SuffixAt(body, rest, n);
    SuffixAt(body[..n], data, 4);
    assert body[..n] == length + data && body[4..n] == body[..n][4..];
  }

  lemma SuffixAt(bs: seq<byte>, suffix: seq<byte>, n: nat)
    requires |bs| == n + |suffix| && forall i :: 0 <= i < |suffix| ==> bs[n + i] == suffix[i]
    ensures bs[n..] == suffix
  {
  }

  lemma ParsePartFrame(enc: Message -> seq<byte>, dec: seq<byte> -> Option<Message>, m: Message, k: nat)
    requires Fits(enc, m) && k < |Frame(enc(m))|
    ensures Parse(Frame(enc(m))[..k], false, dec) == []
  {
    var data := enc(m);
    var stream := Frame(data)[..k];
    if k >= 4 {
      assert stream[..4] == HEAD_FILLER;
      assert Parse(stream, false, dec) == Parse(stream[4..], true, dec);
      if k >= 8 {
        LengthBehind(data, k);
        Uint32RoundTrip(|data|);
      }
    }
  }

  lemma LengthBehind(data: seq<byte>, k: nat)
    requires |data| < WORD && 8 <= k < |Frame(data)|
    ensures Frame(data)[..k][4..][..4] == PutUint32(|data|)
  {
    var (got, length) := (Frame(data)[..k][4..][..4], PutUint32(|data|));
    forall i | 0 <= i < 4 ensures got[i] == length[i] {
      assert got[i] == Frame(data)[..k][4 + i] == Frame(data)[4 + i] == length[i];
    }
  }

  /** A stream cut after any number of bytes gives back, in order, exactly the messages whose
      frames had arrived completely. */
  lemma {:induction false} CutStream(enc: Message -> seq<byte>, dec: seq<byte> -> Option<Message>,
                                     ms: seq<Message>, k: nat)
    requires LeftInverse(enc, dec) && AllFit(enc, ms)
    ensures Parse(Upto(Frames(enc, ms), k), false, dec) == ms[..WholeFrames(enc, ms, k)]
    decreases |ms|
  {
    if ms != [] {
      var f := Frame(enc(ms[0]));
      var all := Frames(enc, ms);
      if k < |f| {
        assert Upto(all, k) == f[..k];
        ParsePartFrame(enc, dec, ms[0], k);
      } else {
        CutStream(enc, dec, ms[1..], k - |f|);
        assert Upto(all, k) == f + Upto(Frames(enc, ms[1..]), k - |f|);
        ParseOneFrame(enc, dec, ms[0], Upto(Frames(enc, ms[1..]), k - |f|));
      }
    }
  }

  lemma {:induction false} WholeStream(enc: Message -> seq<byte>, ms: seq<Message>, k: nat)
    requires k >= |Frames(enc, ms)|
    ensures WholeFrames(enc, ms, k) == |ms|
    decreases |ms|
  {
    if ms != [] {
      WholeStream(enc, ms[1..], k - |Frame(enc(ms[0]))|);
    }
  }

  /** An uncut stream gives back the whole list, also to a reader whose first magic was taken
      off by somebody else. */
  lemma FramingRoundTrip(enc: Message -> seq<byte>, dec: seq<byte> -> Option<Message>, ms: seq<Message>)
    requires LeftInverse(enc, dec) && AllFit(enc, ms)
    ensures Parse(Frames(enc, ms), false, dec) == ms
    ensures ms != [] ==> Parse(Frames(enc, ms)[4..], true, dec) == ms
  {
    CutStream(enc, dec, ms, |Frames(enc, ms)|);
    WholeStream(enc, ms, |Frames(enc, ms)|);
    assert ms[..|ms|] == ms;
    if ms != [] {
      assert Frames(enc, ms)[..4] == HEAD_FILLER;
    }
  }

  /** Sender, wire and reader together, for a connection that takes `budget` bytes: a prefix
      of the messages arrives, in order; all of them if they fit and the connection holds. */
  lemma DeliveredInOrder(enc: Message -> seq<byte>, dec: seq<byte> -> Option<Message>, ms: seq<Message>, budget: nat)
    requires LeftInverse(enc, dec)
    ensures var got := Parse(Upto(Stream(enc, ms), budget), false, dec);
            got <= ms && (AllFit(enc, ms) && budget >= |Frames(enc, ms)| ==> got == ms)
  {
    var fit := Fitting(enc, ms);
    CutStream(enc, dec, fit, budget);
    if budget >= |Frames(enc, ms)| && fit == ms {
      WholeStream(enc, ms, budget);
    }
  }
}
