/** Backing up the chunks of a file: choosing a miner for each chunk, recording progress, and
    submitting the metadata. What the world answers is given as lists; a call that has not
    returned when its list runs out is still trying. */
module Backup {
  import opened Wrappers
  import opened Numerals
  import opened ChainClient

  const SIZE_1KIB: nat := 1024
  const MAX_UINT32: nat := 0xFFFF_FFFF
  const BLOCK_ID_LENGTH: nat := 68

  datatype Cached = Missing | Garbled | Info(peerId: nat, free: nat)

  /** How far sending the chunk to a miner gets. Sending hangs if the miner sends too many messages
      after the last one that is taken; see SendFile. */
  datatype Contact = ResolveFails | DialFails | NotTcp | SendFails | SendPanics | SendHangs | Sends

  datatype Miner = Miner(acc: seq<byte>, cached: Cached, contact: Contact)

  /** What one call of backupFile meets. Asking for the miners panics without a connection. */
  datatype Place = Place(size: Option<nat>, tag: Tag, miners: Option<seq<Miner>>, signOk: bool)

  /** The chunk's tag: on disk already, or the outcome of asking for it. */
  datatype Tag = Stored | Saved | Refused | Panicked

  datatype BlockInfo = BlockInfo(minerId: nat, blockSize: nat, blockNum: nat, minerAcc: seq<byte>, blockId: string)

  const ZERO_BLOCK := BlockInfo(0, 0, 0, [], "")

  /** The outcome of a call: what it returned, and whether it left the work lock locked; or it never
      returns, and holds the lock. */
  datatype Attempt = Attempt(info: BlockInfo, err: bool, lockKept: bool) | Hangs {
    predicate KeepsLock() { Hangs? || lockKept }
  }

  function BlockSize(fsize: nat): nat {
    if fsize < SIZE_1KIB then fsize
    else if fsize > MAX_UINT32 then MAX_UINT32
    else fsize / 16
  }

  lemma BlockSizePositive(fsize: nat)
    ensures BlockSize(fsize) == 0 <==> fsize == 0
  {
  }

  /** How many blocks a chunk has: one below 1 KiB, sixteen up to 4 GiB, whatever the remainder. */
  function BlockCount(fsize: nat): nat {
    if fsize < SIZE_1KIB then 1 else if fsize > MAX_UINT32 then fsize / MAX_UINT32 else 16
  }

  lemma BlockNumIsCount(fsize: nat)
    requires fsize > 0
    ensures BlockSize(fsize) > 0 && fsize / BlockSize(fsize) == BlockCount(fsize)
  {
    var b := BlockSize(fsize);
    if fsize < SIZE_1KIB {
      QuotientUnique(1, 0, b);
    } else if fsize <= MAX_UINT32 {
      assert fsize == 16 * b + fsize % 16;
      QuotientUnique(16, fsize % 16, b);
    }
  }

  function PaddedName(fname: string): string {
    if |fname| < BLOCK_ID_LENGTH then fname + ".000" else fname
  }

  /** Before the lock is taken: miners that are passed over. */
  predicate PassedOver(m: Miner, size: nat) {
    !m.cached.Info? || m.cached.free < size || m.contact == ResolveFails
  }

  /** What the loop over the miners comes to, for a chunk of this size. */
  function Search(fname: string, size: nat, miners: seq<Miner>): Attempt
    requires size > 0
    decreases |miners|
  {
    if miners == [] then Attempt(ZERO_BLOCK, true, false)
    else
      var m, rest := miners[0], miners[1..];
      if PassedOver(m, size) then Search(fname, size, rest)
      else
        match m.contact
        case DialFails => Attempt(ZERO_BLOCK, false, false)  // closing the nil connection panics
        case SendPanics => Attempt(ZERO_BLOCK, false, true)  // recovered, but nothing unlocks
        case SendHangs => Hangs
        case Sends =>
          var name := PaddedName(fname);
          if |name| != BLOCK_ID_LENGTH then Search(name, size, rest)
          else
            BlockSizePositive(size);
            var info := BlockInfo(m.cached.peerId, size, size / BlockSize(size), m.acc, name);
            Attempt(info, m.cached.peerId == 0, false)
        case _ => Search(fname, size, rest)
  }

  function Try(fname: string, w: Place): Attempt {
    if w.size == None then Attempt(ZERO_BLOCK, true, false)
    else if w.size.value == 0 then Attempt(ZERO_BLOCK, false, false) // division by zero panics
    else if w.tag == Refused then Attempt(ZERO_BLOCK, true, false)
    else if w.tag == Panicked then Attempt(ZERO_BLOCK, false, false) // the request unlocks in a deferred call
    else if w.miners == None then Attempt(ZERO_BLOCK, false, false)
    else if !w.signOk then Attempt(ZERO_BLOCK, true, false)
    else Search(fname, w.size.value, w.miners.value)
  }

  method BackupFile(fname: string, w: Place) returns (a: Attempt)
    ensures a == Try(fname, w)
  {
    if w.size == None {
      return Attempt(ZERO_BLOCK, true, false);
    }
    var size := w.size.value;
    var blocksize := BlockSize(size);
    BlockSizePositive(size);
    if blocksize == 0 {
      return Attempt(ZERO_BLOCK, false, false);
    }
    var blocknum := size / blocksize;
    if w.tag == Refused {
      return Attempt(ZERO_BLOCK, true, false);
    }
    if w.tag == Panicked {
      return Attempt(ZERO_BLOCK, false, false);
    }
    if w.miners == None {
      return Attempt(ZERO_BLOCK, false, false);
    }
    var miners := w.miners.value;
    if !w.signOk {
      return Attempt(ZERO_BLOCK, true, false);
    }
    var name, rtn := fname, ZERO_BLOCK;
    var locked := false;
    var i := 0;
    while i < |miners|
      invariant 0 <= i <= |miners| && rtn == ZERO_BLOCK && !locked
      invariant Search(fname, size, miners) == Search(name, size, miners[i..])
    {
      var m := miners[i];
      assert miners[i..][1..] == miners[i + 1..];
      i := i + 1;
      if !m.cached.Info? {
        continue;
      }
      if m.cached.free < size {
        continue;
      }
      if m.contact == ResolveFails {
        continue;
      }
      locked := true;
      match m.contact {
        case DialFails =>
          locked := false;
          return Attempt(ZERO_BLOCK, false, locked);
        case SendPanics =>
          return Attempt(ZERO_BLOCK, false, locked);
        case SendHangs =>
          return Hangs;
        case Sends =>
          locked := false;
          name := PaddedName(name);
          if |name| != BLOCK_ID_LENGTH {
            continue;
          }
          rtn := BlockInfo(m.cached.peerId, size, blocknum, m.acc, name);
          return Attempt(rtn, rtn.minerId == 0, locked);
        case _ =>
          locked := false;
      }
    }
    return Attempt(rtn, true, locked);
  }

  /** The record a call must return for the chunk to count as stored. */
  predicate Recorded(a: Attempt) {
    a.Attempt? && !a.err && a.info.minerId != 0 && a.info.blockSize != 0
  }

  /** A name that comes to 68 characters if it is lengthened by four at a time. */
  predicate Fillable(fname: string) {
    |fname| <= BLOCK_ID_LENGTH && (BLOCK_ID_LENGTH - |fname|) % 4 == 0
  }

  /** The name with ".000" behind it as often as it takes to come to 68 characters. */
  ghost predicate FilledUp(fname: string, id: string) {
    && |id| == BLOCK_ID_LENGTH && fname <= id
    && forall i :: |fname| <= i < BLOCK_ID_LENGTH ==> id[i] == ".000"[(i - |fname|) % 4]
  }

  lemma FilledUpNext(fname: string, id: string)
    requires |fname| < BLOCK_ID_LENGTH && FilledUp(PaddedName(fname), id)
    ensures FilledUp(fname, id)
  {
    var next := PaddedName(fname);
    assert next == fname + ".000" && |next| == |fname| + 4;
    forall i | |fname| <= i < BLOCK_ID_LENGTH ensures id[i] == ".000"[(i - |fname|) % 4] {
      if i < |next| {
        assert id[i] == next[i] == ".000"[i - |fname|];
      } else {
        assert (i - |fname|) % 4 == (i - |next|) % 4;
      }
    }
  }

  /** The record names the chunk and a miner that was sent it and had room for it. */
  ghost predicate Vouched(info: BlockInfo, fname: string, w: Place) {
    && w.size.Some? && info.blockSize == w.size.value > 0 && info.blockNum == BlockCount(w.size.value)
    && Fillable(fname) && FilledUp(fname, info.blockId)
    && w.miners.Some? && exists m :: m in w.miners.value && Holds(m, info)
  }

  ghost predicate Holds(m: Miner, info: BlockInfo) {
    m.acc == info.minerAcc && m.contact == Sends && m.cached.Info? && m.cached.peerId == info.minerId
    && m.cached.free >= info.blockSize
  }

  lemma NameComplete(fname: string)
    requires |PaddedName(fname)| == BLOCK_ID_LENGTH
    ensures FilledUp(fname, PaddedName(fname))
  {
    assert FilledUp(PaddedName(fname), PaddedName(fname));
    if |fname| < BLOCK_ID_LENGTH {
      FilledUpNext(fname, PaddedName(fname));
    }
  }

  lemma {:induction false} SearchVouched(fname: string, size: nat, miners: seq<Miner>)
    requires size > 0
    ensures var a := Search(fname, size, miners);
            Recorded(a) ==> a.info.blockSize == size && a.info.blockNum == BlockCount(size) &&
                            FilledUp(fname, a.info.blockId) &&
                            (exists m :: m in miners && Holds(m, a.info)) && !a.lockKept
    decreases |miners|
  {
    if miners != [] {
      BlockNumIsCount(size);
      SearchVouched(fname, size, miners[1..]);
      SearchVouched(PaddedName(fname), size, miners[1..]);
      var a := Search(PaddedName(fname), size, miners[1..]);
      if |fname| < BLOCK_ID_LENGTH && Recorded(a) {
        FilledUpNext(fname, a.info.blockId);
      }
      if |PaddedName(fname)| == BLOCK_ID_LENGTH {
        NameComplete(fname);
      }
      assert miners[0] in miners;
      assert forall m :: m in miners[1..] ==> m in miners;
    }
  }

  lemma RecordIsVouched(fname: string, w: Place)
    ensures Recorded(Try(fname, w)) ==> Vouched(Try(fname, w).info, fname, w)
  {
    if w.size.Some? && w.size.value > 0 && w.miners.Some? {
      SearchVouched(fname, w.size.value, w.miners.value);
      if !Fillable(fname) {
        BadNameNotRecorded(fname, w.size.value, w.miners.value);
      }
    }
  }

  /** A chunk with another name is sent to miner after miner and not recorded. */
  lemma {:induction false} BadNameNotRecorded(fname: string, size: nat, miners: seq<Miner>)
    requires size > 0 && !Fillable(fname)
    ensures !Recorded(Search(fname, size, miners))
    decreases |miners|
  {
    if miners != [] {
      BadNameNotRecorded(fname, size, miners[1..]);
      BadNameNotRecorded(PaddedName(fname), size, miners[1..]);
    }
  }

  const WILLING := Miner([], Info(1, 0), Sends)

  /** As many willing miners as the name needs. */
  lemma {:induction false} WillingMiners(fname: string, size: nat) returns (miners: seq<Miner>)
    requires size > 0 && Fillable(fname)
    ensures Recorded(Search(fname, size, miners))
    decreases BLOCK_ID_LENGTH - |fname|
  {
    var m := WILLING.(cached := Info(1, size));
    if |PaddedName(fname)| == BLOCK_ID_LENGTH {
      miners := [m];
    } else {
      var rest := WillingMiners(PaddedName(fname), size);
      miners := [m] + rest;
      assert miners[1..] == rest;
    }
  }

  /** A chunk of this size can be recorded, by miners that take it, exactly if it is not empty and its
      name can be filled up. */
  lemma RecordableExactly(fname: string, size: nat)
    ensures (exists w: Place :: w.size == Some(size) && Recorded(Try(fname, w))) <==> size > 0 && Fillable(fname)
  {
    forall w: Place | w.size == Some(size) && Recorded(Try(fname, w)) ensures size > 0 && Fillable(fname) {
      RecordIsVouched(fname, w);
    }
    if size > 0 && Fillable(fname) {
      var miners := WillingMiners(fname, size);
      var w := Place(Some(size), Stored, Some(miners), true);
      assert Try(fname, w) == Search(fname, size, miners);
    }
  }

  // ----- the lock a call keeps

  /** The loop goes on to the next miner. */
  predicate GoesOn(name: string, size: nat, m: Miner) {
    || PassedOver(m, size) || m.contact == NotTcp || m.contact == SendFails
    || (m.contact == Sends && |PaddedName(name)| != BLOCK_ID_LENGTH)
  }

  function NameAfter(name: string, size: nat, m: Miner): string {
    if !PassedOver(m, size) && m.contact == Sends then PaddedName(name) else name
  }

  /** The chunk's name when it is the turn of miner i. */
  function NameAt(fname: string, size: nat, miners: seq<Miner>, i: nat): string
    requires i <= |miners|
    decreases i
  {
    if i == 0 then fname else NameAt(NameAfter(fname, size, miners[0]), size, miners[1..], i - 1)
  }

  /** The loop ends at miner i. */
  ghost predicate EndsAt(fname: string, size: nat, miners: seq<Miner>, i: nat) {
    && i < |miners| && !GoesOn(NameAt(fname, size, miners, i), size, miners[i])
    && forall j :: 0 <= j < i ==> GoesOn(NameAt(fname, size, miners, j), size, miners[j])
  }

  ghost predicate Decides(a: Attempt, fname: string, size: nat, miners: seq<Miner>, i: nat)
    requires size > 0 && i < |miners|
  {
    var (m, id) := (miners[i], PaddedName(NameAt(fname, size, miners, i)));
    match m.contact
    case DialFails => a == Attempt(ZERO_BLOCK, false, false)
    case SendPanics => a == Attempt(ZERO_BLOCK, false, true)
    case SendHangs => a == Hangs
    case Sends =>
      && m.cached.Info?
      && a == Attempt(BlockInfo(m.cached.peerId, size, BlockCount(size), m.acc, id), m.cached.peerId == 0, false)
    case _ => false
  }

  lemma EndsLater(fname: string, size: nat, miners: seq<Miner>, i: nat)
    requires miners != []
    ensures EndsAt(fname, size, miners, i + 1) <==>
              GoesOn(fname, size, miners[0]) && EndsAt(NameAfter(fname, size, miners[0]), size, miners[1..], i)
  {
    var name, rest := NameAfter(fname, size, miners[0]), miners[1..];
    assert NameAt(fname, size, miners, 0) == fname;
    assert forall j :: 0 <= j < |rest| ==> NameAt(fname, size, miners, j + 1) == NameAt(name, size, rest, j);
    if EndsAt(fname, size, miners, i + 1) {
      forall j | 0 <= j < i ensures GoesOn(NameAt(name, size, rest, j), size, rest[j]) {
        assert GoesOn(NameAt(fname, size, miners, j + 1), size, miners[j + 1]);
      }
    }
    if GoesOn(fname, size, miners[0]) && EndsAt(name, size, rest, i) {
      forall j | 0 <= j < i + 1 ensures GoesOn(NameAt(fname, size, miners, j), size, miners[j]) {
        assert j > 0 ==> GoesOn(NameAt(name, size, rest, j - 1), size, rest[j - 1]);
      }
    }
  }

  /** What a call returns is decided by the miner at which its loop ends; if there is none, i is past the
      last, and it is an error. */
  lemma {:induction false} SearchEnd(fname: string, size: nat, miners: seq<Miner>) returns (i: nat)
    requires size > 0
    ensures i <= |miners|
    ensures i < |miners| ==>
              EndsAt(fname, size, miners, i) && Decides(Search(fname, size, miners), fname, size, miners, i)
    ensures i == |miners| ==>
              && Search(fname, size, miners) == Attempt(ZERO_BLOCK, true, false)
              && forall j: nat :: !EndsAt(fname, size, miners, j)
    decreases |miners|
  {
    i := 0;
    if miners != [] {
      var name, rest := NameAfter(fname, size, miners[0]), miners[1..];
      assert NameAt(fname, size, miners, 0) == fname;
      if GoesOn(fname, size, miners[0]) {
        assert Search(fname, size, miners) == Search(name, size, rest);
        var k := SearchEnd(name, size, rest);
        i := k + 1;
        forall j: nat | EndsAt(fname, size, miners, j) ensures j > 0 && EndsAt(name, size, rest, j - 1) {
          assert j > 0;
          EndsLater(fname, size, miners, j - 1);
        }
        EndsLater(fname, size, miners, k);
        assert NameAt(fname, size, miners, i) == NameAt(name, size, rest, k);
      } else {
        BlockNumIsCount(size);
      }
    }
  }

  /** A call gets as far as the miners, and contact with the one at which its loop ends goes this way. */
  ghost predicate Meets(fname: string, w: Place, c: Contact) {
    && w.size.Some? && w.size.value > 0 && (w.tag == Stored || w.tag == Saved) && w.miners.Some? && w.signOk
    && exists i: nat :: EndsAt(fname, w.size.value, w.miners.value, i) && w.miners.value[i].contact == c
  }

  /** The inputs on which the work lock is not given back. */
  ghost predicate LosesLock(fname: string, w: Place) {
    Meets(fname, w, SendPanics) || Meets(fname, w, SendHangs)
  }

  /** A call returns with the lock locked, or does not return, exactly if it comes to a miner to which
      sending panics, or hangs. */
  lemma KeepsLockExactly(fname: string, w: Place)
    ensures Try(fname, w).Attempt? && Try(fname, w).lockKept <==> Meets(fname, w, SendPanics)
    ensures Try(fname, w).Hangs? <==> Meets(fname, w, SendHangs)
    ensures Try(fname, w).KeepsLock() <==> LosesLock(fname, w)
  {
    if w.size.Some? && w.size.value > 0 && w.miners.Some? {
      var i := SearchEnd(fname, w.size.value, w.miners.value);
    }
  }

  /** A call returns an error exactly if the chunk is not there, or its tag is refused, or nothing can be
      signed, or the loop ends at no miner, or at one whose number is zero. A panic is no error. */
  lemma FailsExactly(fname: string, w: Place)
    ensures Try(fname, w).Attempt? && Try(fname, w).err <==>
              || w.size == None
              || (w.size.value > 0 && w.tag == Refused)
              || (w.size.value > 0 && w.tag in {Stored, Saved} && w.miners.Some? &&
                   (!w.signOk || forall i: nat :: EndsAt(fname, w.size.value, w.miners.value, i) ==>
                                   w.miners.value[i].contact == Sends && w.miners.value[i].cached.peerId == 0))
  {
    if w.size.Some? && w.size.value > 0 && w.miners.Some? {
      var i := SearchEnd(fname, w.size.value, w.miners.value);
    }
  }

  // ----- managing the backup of a file

  datatype Status = Pending | Active | Failed

  datatype FileSt = FileSt(size: nat, state: Status, isScheduler: bool, miners: map<nat, seq<byte>>)

  /** One submission, and the look at the chain that follows if it failed. */
  datatype Round = Round(call: Call, look: Look)

  /** The backup is over with this status recorded, or over by a panic that was recovered, or still
      being made when the lists run out; or it hangs in sending a chunk, with the work lock locked. */
  datatype BackupEnd = Concluded(status: Status) | Died | StillTrying | Hanging

  /** The miner map covers exactly the placed chunks, each under the account of its record. */
  ghost predicate Records(st: FileSt, placed: seq<BlockInfo>) {
    && (forall i: nat :: i in st.miners <==> i < |placed|)
    && (forall i: nat :: i < |placed| ==> st.miners[i] == placed[i].minerAcc)
  }

  /** The i-th record has a non-zero miner and comes from a call that vouches for the i-th chunk. */
  ghost predicate AllVouched(placed: seq<BlockInfo>, chunks: seq<string>, worlds: seq<Place>) {
    |placed| <= |chunks|
    && forall i :: 0 <= i < |placed| ==> placed[i].minerId != 0 && VouchedBySome(placed[i], chunks[i], worlds)
  }

  ghost predicate VouchedBySome(info: BlockInfo, fname: string, worlds: seq<Place>) {
    exists w :: w in worlds && Vouched(info, fname, w)
  }

  /** The statuses cached while chunks are placed: one to begin with, then one for each chunk. */
  ghost predicate History(cache: seq<FileSt>, placed: seq<BlockInfo>) {
    |cache| == |placed| + 1
    && forall j :: 0 <= j < |cache| ==> Records(cache[j], placed[..j]) && cache[j].state == Pending
  }

  class Node {
    var cache: seq<FileSt>                // every status stored under the file's id, newest last
    var submitted: seq<seq<BlockInfo>>    // the metadata handed to the chain

    constructor ()
      ensures cache == [] && submitted == []
    {
      cache, submitted := [], [];
    }

    method FileBackupManagement(fsize: nat, chunks: seq<string>, worlds: seq<Place>, rounds: seq<Round>)
      returns (end: BackupEnd, ghost placed: seq<BlockInfo>)
      requires cache == [] && submitted == []
      modifies this
      ensures placed == Placing(chunks, worlds).infos && AllVouched(placed, chunks, worlds)
      ensures chunks == [] ==>
                end == Concluded(Pending) && cache == [FileSt(fsize, Pending, false, map[])] && submitted == []
      ensures forall infos :: infos in submitted ==> infos == placed
      ensures chunks != [] ==> forall st :: st in cache ==> st.size == fsize && st.isScheduler
      ensures chunks != [] ==>
                && (|placed| < |chunks| ==> submitted == [])
                && (|placed| < |chunks| ==> end == if Placing(chunks, worlds).hung then Hanging else StillTrying)
                && (|placed| == |chunks| ==> Settled(end, rounds, |submitted|) && |submitted| <= 4)
                && (if end.Concluded?
                    then |cache| == |placed| + 2 && History(cache[..|placed| + 1], placed)
                         && Records(cache[|placed| + 1], placed) && cache[|placed| + 1].state == end.status
                    else History(cache, placed))
    {
      placed := [];
      var fileSt := FileSt(fsize, Pending, true, map[]);
      if |chunks| <= 0 {
        fileSt := fileSt.(isScheduler := false);
        cache := cache + [fileSt];
        return Concluded(Pending), placed;
      }
      cache := cache + [fileSt];
      var hung, chunksInfo;
      hung, fileSt, chunksInfo := PlaceAll(fileSt, chunks, worlds);
      placed := chunksInfo;
      if |chunksInfo| < |chunks| {
        return if hung then Hanging else StillTrying, placed;
      }
      end := SubmitAll(chunksInfo, rounds);
      if !end.Concluded? {
        return;
      }
      ghost var before := cache;
      cache := cache + [fileSt.(state := end.status)];
      assert cache[..|placed| + 1] == before;
    }

    /** Chunk after chunk, each as often as needed. */
    method PlaceAll(start: FileSt, chunks: seq<string>, worlds: seq<Place>)
      returns (hung: bool, fileSt: FileSt, infos: seq<BlockInfo>)
      requires cache == [start] && start.miners == map[] && start.state == Pending
      modifies this`cache
      ensures Placing(chunks, worlds) == Progress(infos, hung)
      ensures AllVouched(infos, chunks, worlds) && History(cache, infos)
      ensures forall st :: st in cache ==> st == start.(miners := st.miners)
      ensures Records(fileSt, infos) && fileSt == start.(miners := fileSt.miners)
    {
      fileSt, infos := start, [];
      var i, t := 0, 0;
      while i < |chunks|
        invariant 0 <= t <= |worlds| && |infos| == i <= |chunks|
        invariant Placing(chunks, worlds[..t]) == Progress(infos, false)
        invariant AllVouched(infos, chunks, worlds)
        invariant Records(fileSt, infos) && fileSt == start.(miners := fileSt.miners)
        invariant History(cache, infos)
        invariant forall st :: st in cache ==> st == start.(miners := st.miners)
        decreases |worlds| - t
      {
        if t == |worlds| {
          assert worlds[..t] == worlds;
          return false, fileSt, infos;
        }
        var a := BackupFile(chunks[i], worlds[t]);
        RecordIsVouched(chunks[i], worlds[t]);
        PlacingGoesOn(chunks, worlds, t);
        t := t + 1;
        if a.Hangs? {
          NoFurther(chunks, worlds, t);
          return true, fileSt, infos;
        }
        if a.err {
          continue;
        }
        if a.info.minerId == 0 || a.info.blockSize == 0 {
          continue;
        }
        assert VouchedBySome(a.info, chunks[i], worlds);
        MoreVouched(infos, a.info, chunks, worlds);
        NextPlaced(cache, fileSt, infos, a.info);
        infos := infos + [a.info];
        fileSt := fileSt.(miners := fileSt.miners[i := a.info.minerAcc]);
        i := i + 1;
        cache := cache + [fileSt];
      }
      NoFurther(chunks, worlds, t);
      hung := false;
    }

    /** Submitting the metadata, at most four times. */
    method SubmitAll(infos: seq<BlockInfo>, rounds: seq<Round>) returns (end: BackupEnd)
      requires submitted == []
      modifies this`submitted
      ensures |submitted| <= 4 && Settled(end, rounds, |submitted|)
      ensures forall m :: m in submitted ==> m == infos
    {
      var tryCount, n := 0, 0;
      while n < |rounds|
        invariant n == tryCount == |submitted| <= 3 && n <= |rounds|
        invariant forall m :: m in submitted ==> m == infos
        invariant forall i :: 0 <= i < n ==> Retries(rounds[i])
      {
        submitted := submitted + [infos];
        var r := rounds[n];
        n := n + 1;
        if r.call.CallPanics? {
          return Died;
        }
        if r.call.result.err {
          tryCount := tryCount + 1;
          if tryCount > 3 {
            return Concluded(Failed);
          }
          if r.look.LookPanics? {
            return Died;
          }
          if r.look == State(true) {
            return Concluded(Active);
          }
          continue;
        }
        return Concluded(Active);
      }
      return StillTrying;
    }
  }

  lemma MoreVouched(infos: seq<BlockInfo>, info: BlockInfo, chunks: seq<string>, worlds: seq<Place>)
    requires AllVouched(infos, chunks, worlds) && |infos| < |chunks|
    requires info.minerId != 0 && VouchedBySome(info, chunks[|infos|], worlds)
    ensures AllVouched(infos + [info], chunks, worlds)
  {
  }

  lemma NextPlaced(cache: seq<FileSt>, st: FileSt, infos: seq<BlockInfo>, info: BlockInfo)
    requires History(cache, infos) && Records(st, infos) && st.state == Pending
    ensures var st' := st.(miners := st.miners[|infos| := info.minerAcc]);
            Records(st', infos + [info]) && History(cache + [st'], infos + [info])
  {
    var more := infos + [info];
    assert forall j :: 0 <= j < |cache| ==> more[..j] == infos[..j];
    assert more[..|more|] == more;
  }

  // ----- when placing ends

  datatype Progress = Progress(infos: seq<BlockInfo>, hung: bool)

  /** The records made of the chunks, one world for each call of backupFile, as long as none hangs. */
  function Placing(chunks: seq<string>, worlds: seq<Place>): (p: Progress)
    ensures |p.infos| <= |chunks| && (p.hung ==> |p.infos| < |chunks|)
    decreases |worlds|
  {
    if worlds == [] then Progress([], false)
    else
      var before := Placing(chunks, worlds[..|worlds| - 1]);
      if before.hung || |before.infos| == |chunks| then before
      else
        var a := Try(chunks[|before.infos|], worlds[|worlds| - 1]);
        if a.Hangs? then before.(hung := true)
        else if Recorded(a) then before.(infos := before.infos + [a.info])
        else before
  }

  lemma PlacingGoesOn(chunks: seq<string>, worlds: seq<Place>, t: nat)
    requires t < |worlds| && !Placing(chunks, worlds[..t]).hung && |Placing(chunks, worlds[..t]).infos| < |chunks|
    ensures var infos := Placing(chunks, worlds[..t]).infos;
            var a := Try(chunks[|infos|], worlds[t]);
            Placing(chunks, worlds[..t + 1]) ==
              Progress(if Recorded(a) then infos + [a.info] else infos, a.Hangs?)
  {
    assert worlds[..t + 1][..t] == worlds[..t];
  }

  lemma {:induction false} NoFurther(chunks: seq<string>, worlds: seq<Place>, t: nat)
    requires t <= |worlds|
    requires Placing(chunks, worlds[..t]).hung || |Placing(chunks, worlds[..t]).infos| == |chunks|
    ensures Placing(chunks, worlds) == Placing(chunks, worlds[..t])
    decreases |worlds|
  {
    var k := |worlds| - 1;
    if t == |worlds| {
      assert worlds[..t] == worlds;
    } else {
      assert worlds[..k][..t] == worlds[..t];
      NoFurther(chunks, worlds[..k], t);
    }
  }

  /** Call k is made, and it comes to a miner to which sending hangs. */
  ghost predicate HangsAt(chunks: seq<string>, worlds: seq<Place>, k: nat) {
    && k < |worlds|
    && var n := |Placing(chunks, worlds[..k]).infos|; n < |chunks| && Meets(chunks[n], worlds[k], SendHangs)
  }

  lemma LastHangs(chunks: seq<string>, worlds: seq<Place>)
    requires worlds != []
    ensures Placing(chunks, worlds).hung <==>
              Placing(chunks, worlds[..|worlds| - 1]).hung || HangsAt(chunks, worlds, |worlds| - 1)
  {
    var k := |worlds| - 1;
    var n := |Placing(chunks, worlds[..k]).infos|;
    if n < |chunks| {
      KeepsLockExactly(chunks[n], worlds[k]);
    }
  }

  lemma {:induction false} PlacingHangsExactly(chunks: seq<string>, worlds: seq<Place>)
    ensures Placing(chunks, worlds).hung <==> exists k: nat :: HangsAt(chunks, worlds, k)
    decreases |worlds|
  {
    if worlds != [] {
      var last := |worlds| - 1;
      PlacingHangsExactly(chunks, worlds[..last]);
      LastHangs(chunks, worlds);
      forall k: nat | k < last ensures HangsAt(chunks, worlds, k) == HangsAt(chunks, worlds[..last], k) {
        assert worlds[..last][..k] == worlds[..k];
      }
    }
  }

  /** Placing never gets past a chunk whose name cannot be filled up, or that is found empty at every
      attempt, however many there are. */
  lemma {:induction false} NeverPast(chunks: seq<string>, worlds: seq<Place>, i: nat)
    requires i < |chunks|
    requires !Fillable(chunks[i]) || forall w :: w in worlds ==> w.size == Some(0)
    ensures |Placing(chunks, worlds).infos| <= i
    decreases |worlds|
  {
    if worlds != [] {
      var k := |worlds| - 1;
      assert worlds[k] in worlds && forall w :: w in worlds[..k] ==> w in worlds;
      NeverPast(chunks, worlds[..k], i);
      RecordIsVouched(chunks[i], worlds[k]);
    }
  }

  /** All chunks of a file can be placed exactly if all their names can be filled up. */
  lemma PlaceableExactly(chunks: seq<string>)
    ensures (exists worlds :: |Placing(chunks, worlds).infos| == |chunks|) <==>
            forall i :: 0 <= i < |chunks| ==> Fillable(chunks[i])
  {
    if worlds :| |Placing(chunks, worlds).infos| == |chunks| {
      forall i | 0 <= i < |chunks| ensures Fillable(chunks[i]) {
        if !Fillable(chunks[i]) {
          NeverPast(chunks, worlds, i);
        }
      }
    }
    if forall i :: 0 <= i < |chunks| ==> Fillable(chunks[i]) {
      var worlds := PlaceFirst(chunks, |chunks|);
    }
  }

  lemma {:induction false} PlaceFirst(chunks: seq<string>, n: nat) returns (worlds: seq<Place>)
    requires n <= |chunks| && forall i :: 0 <= i < |chunks| ==> Fillable(chunks[i])
    ensures |Placing(chunks, worlds).infos| == n && !Placing(chunks, worlds).hung
    decreases n
  {
    if n == 0 {
      worlds := [];
    } else {
      RecordableExactly(chunks[n - 1], 1);
      var w: Place :| w.size == Some(1) && Recorded(Try(chunks[n - 1], w));
      var before := PlaceFirst(chunks, n - 1);
      worlds := before + [w];
      assert worlds[..|before|] == before;
    }
  }

  // ----- how submitting ends

  /** The submission failed, and a look at the chain does not show the file as active. */
  predicate Retries(r: Round) {
    r.call.Returned? && r.call.result.err && !r.look.LookPanics? && r.look != State(true)
  }

  /** How n submissions end. All but the last failed and found no active file. Then the last succeeded,
      or failed with the file active, or was the fourth failure, or it or the look after it panicked. */
  ghost predicate Settled(end: BackupEnd, rounds: seq<Round>, n: nat) {
    && n <= |rounds| && (forall i :: 0 <= i < n - 1 ==> Retries(rounds[i])) && end != Hanging
    && (end == StillTrying <==> n == |rounds| && n < 4 && (n > 0 ==> Retries(rounds[n - 1])))
    && (end != StillTrying ==>
          && n > 0
          && var (call, look) := (rounds[n - 1].call, rounds[n - 1].look);
             && (end == Died <==> call.CallPanics? || (call.result.err && n < 4 && look.LookPanics?))
             && (end == Concluded(Active) <==> call.Returned? && (!call.result.err || (n < 4 && look == State(true))))
             && (end == Concluded(Failed) <==> call.Returned? && call.result.err && n == 4)
             && (end.Concluded? ==> end.status != Pending))
  }

  /** With fewer than four rounds given or not, exactly one end is possible. */
  lemma EndIsUnique(rounds: seq<Round>, e1: BackupEnd, n1: nat, e2: BackupEnd, n2: nat)
    requires Settled(e1, rounds, n1) && Settled(e2, rounds, n2) && n1 <= 4 && n2 <= 4
    ensures e1 == e2 && n1 == n2
  {
    assert n1 < n2 && n1 > 0 ==> Retries(rounds[n1 - 1]);
    assert n2 < n1 && n2 > 0 ==> Retries(rounds[n2 - 1]);
  }

  /** A file recorded as active was confirmed in a block, or seen as active on the chain, or its last
      submission was silent: no hash, no error, and nothing known about it. */
  lemma ActiveMeans(rounds: seq<Round>, n: nat, w: World, api: bool)
    requires Settled(Concluded(Active), rounds, n) && n > 0
    requires AllHashed(w) && rounds[n - 1].call == Submitted(w, api, true)
    ensures || rounds[n - 1].look == State(true)
            || (exists h :: Heard(w, api, true, InBlock(h, true)))
            || Heard(w, api, true, SubscriptionError(false))
  {
    SubmittedMeans(w, api, true);
    var r := rounds[n - 1].call.result;
    assert rounds[n - 1].look == State(true) || Silent(r) || r.txhash != "";
  }

  /** A nil error from the subscription is enough to have the file recorded as active. */
  lemma SilenceActivates(w: World, look: Look)
    requires AllHashed(w) && Heard(w, true, true, SubscriptionError(false))
    ensures Settled(Concluded(Active), [Round(Submitted(w, true, true), look)], 1)
  {
    var k :| AcceptedAs(w, true, true, k) && FirstNews(w.answers(k).events, SubscriptionError(false));
    AcceptedDecides(w, true, true, k);
    SubmittedMeans(w, true, true);
  }

  /** One outage under the first submission, and the look at the chain after it panics: the backup is
      over, with the file still recorded as pending. */
  lemma OutageEndsBackup(w: World, qs: nat -> Query)
    requires Outage(w.link) && qs(0).built
    ensures Settled(Died, [Round(Submitted(w, true, true), Looked(qs, false, 0))], 1)
  {
    assert Submitted(w, true, true) == Returned(FAILED);
  }
}
