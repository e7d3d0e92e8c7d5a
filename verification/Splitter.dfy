/** SplitV2: cutting a file into blocks of equal length, the last one padded with zeros. */
module Splitter {
  import opened Wrappers
  import opened Numerals
  import opened GoSlices

  function ZeroBytes(n: nat): (z: seq<byte>)
    ensures |z| == n && forall i :: 0 <= i < n ==> z[i] == 0
  {
    seq<byte>(n, _ => 0)
  }

  function CeilDiv(n: nat, d: nat): nat
    requires d > 0
  {
    n / d + (if n % d != 0 then 1 else 0)
  }

  /** Consecutive blocks of length sep, the last one padded. */
  function Chunks(file: seq<byte>, sep: nat): seq<seq<byte>>
    requires sep > 0
    decreases |file|
  {
    if file == [] then []
    else if |file| <= sep then [file + ZeroBytes(sep - |file|)]
    else [file[..sep]] + Chunks(file[sep..], sep)
  }

  /** What SplitV2 returns: a file shorter than one block is left alone. */
  function Split(file: seq<byte>, sep: nat): seq<seq<byte>>
    requires sep > 0
  {
    if sep > |file| then [file] else Chunks(file, sep)
  }

  function Concat(blocks: seq<seq<byte>>): seq<byte> {
    if blocks == [] then [] else blocks[0] + Concat(blocks[1..])
  }

  /** The slices show these contents, each within its own array. */
  ghost predicate Shows(blocks: seq<Slice>, contents: seq<seq<byte>>)
    reads set s | s in blocks :: s.arr
  {
    && |blocks| == |contents|
    && forall j :: 0 <= j < |blocks| ==> blocks[j].Valid() && blocks[j].View() == contents[j]
  }

  lemma CeilStep(n: nat, d: nat)
    requires d > 0
    ensures n == 0 ==> CeilDiv(n, d) == 0
    ensures 0 < n <= d ==> CeilDiv(n, d) == 1
    ensures n > d ==> CeilDiv(n, d) == CeilDiv(n - d, d) + 1 >= 2
  {
    if n >= d {
      var q, r := (n - d) / d, (n - d) % d;
      DivMod(n - d, d);
      assert n == (q + 1) * d + r;
      QuotientUnique(q + 1, r, d);
    }
  }

  /** `data` is the buffer os.ReadFile returned, with whatever spare capacity it has. */
  method SplitV2(data: Option<Slice>, sep: nat) returns (blocks: seq<Slice>, N: nat, err: bool)
    requires sep > 0
    requires data.Some? ==> data.value.Valid() && data.value.off == 0
    modifies if data.Some? then {data.value.arr} else {}
    ensures err <==> data.None?
    ensures err ==> blocks == [] && N == 0
    ensures !err ==> N == |blocks| && Shows(blocks, Split(old(data.value.View()), sep))
    ensures !err ==> data.value.View() == old(data.value.View())
  {
    if data == None {
      return [], 0, true;
    }
    var arr, size := data.value.arr, data.value.len;
    ghost var file := data.value.View();
    if sep > size {
      return [data.value], 1, false;
    }
    err := false;
    blocks := [];
    N := size / sep;
    if size % sep != 0 {
      N := N + 1;
    }
    CeilStep(size, sep);
    ghost var at := 0;
    for i := 0 to N
      invariant at == i * sep && CutTo(arr, file, sep, blocks, at, N - i)
      invariant |blocks| == i
    {
      if i != N - 1 {
        TakeBlock(arr, file, sep, blocks, at, N - i);
        blocks := blocks + [Slice(arr, i * sep, sep)];
        at := at + sep;
        assert at == (i + 1) * sep;
        continue;
      }
      blocks := LastBlock(arr, file, size, sep, blocks, i * sep);
      at := at + sep;
      assert at == (i + 1) * sep;
    }
  }

  /** So far blocks show the first `at` bytes, in place, and `left` blocks remain to be cut. */
  ghost predicate CutTo(arr: array<byte>, file: seq<byte>, sep: nat, blocks: seq<Slice>, at: nat, left: int)
    requires sep > 0
    reads arr, set s | s in blocks :: s.arr
  {
    if left == 0 then Shows(blocks, Chunks(file, sep)) && |file| <= arr.Length && arr[..|file|] == file
    else
      && at <= |file| <= arr.Length && arr[..|file|] == file
      && left == CeilDiv(|file| - at, sep) && left > 0
      && InFile(blocks, arr, |file|)
      && Shown(file, blocks) + Chunks(file[at..], sep) == Chunks(file, sep)
  }

  /** The contents of windows on the file. */
  ghost function Shown(file: seq<byte>, blocks: seq<Slice>): (c: seq<seq<byte>>)
    requires forall j :: 0 <= j < |blocks| ==> blocks[j].off + blocks[j].len <= |file|
    ensures |c| == |blocks|
  {
    seq(|blocks|, j requires 0 <= j < |blocks| && blocks[j].off + blocks[j].len <= |file| =>
      file[blocks[j].off..blocks[j].off + blocks[j].len])
  }

  lemma TakeBlock(arr: array<byte>, file: seq<byte>, sep: nat, blocks: seq<Slice>, at: nat, left: int)
    requires sep > 0 && left > 1 && CutTo(arr, file, sep, blocks, at, left)
    ensures at + sep <= |file| && CutTo(arr, file, sep, blocks + [Slice(arr, at, sep)], at + sep, left - 1)
  {
    var rest := file[at..];
    CeilStep(|rest|, sep);
    var more := blocks + [Slice(arr, at, sep)];
    assert rest[..sep] == file[at..at + sep] && rest[sep..] == file[at + sep..];
    assert Shown(file, more) == Shown(file, blocks) + [rest[..sep]];
    assert Shown(file, more) + Chunks(rest[sep..], sep) == Shown(file, blocks) + Chunks(rest, sep);
  }

  /** The last block is padded by append, which writes past the end of the file's bytes or
      into a new array, so no other block changes. */
  method LastBlock(arr: array<byte>, ghost file: seq<byte>, size: nat, sep: nat, blocks: seq<Slice>, at: nat)
    returns (all: seq<Slice>)
    requires sep > 0 && size == |file| && CutTo(arr, file, sep, blocks, at, 1)
    modifies arr
    ensures |all| == |blocks| + 1 && CutTo(arr, file, sep, all, at + sep, 0)
  {
    CeilStep(size - at, sep);
    var i := |blocks|;
    all := blocks + [Slice(arr, at, size - at)];
    WindowsShow(arr, file, all);
    assert Shown(file, all) == Shown(file, blocks) + [file[at..]];
    if sep > size - at {
      ghost var before := all;
      var last := Append(all[i], ZeroBytes(sep - (size - at)));
      assert arr[..size] == file;
      WindowsShow(arr, file, before);
      all := all[i := last];
      assert Chunks(file, sep) == Shown(file, blocks) + [file[at..] + ZeroBytes(sep - (size - at))];
    } else {
      assert file[at..] + ZeroBytes(0) == file[at..];
      assert Chunks(file, sep) == Shown(file, blocks) + [file[at..]];
    }
  }

  lemma WindowsShow(arr: array<byte>, file: seq<byte>, blocks: seq<Slice>)
    requires |file| <= arr.Length && arr[..|file|] == file && InFile(blocks, arr, |file|)
    ensures Shows(blocks, Shown(file, blocks))
  {
    forall j | 0 <= j < |blocks| ensures blocks[j].Valid() && blocks[j].View() == Shown(file, blocks)[j] {
      var (view, shown) := (blocks[j].View(), Shown(file, blocks)[j]);
      assert blocks[j].arr == arr && |view| == |shown|;
      forall k | 0 <= k < |view| ensures view[k] == shown[k] {
        assert view[k] == arr[blocks[j].off + k] == arr[..|file|][blocks[j].off + k] == file[blocks[j].off + k];
      }
    }
  }

  /** The blocks all lie in the file's own bytes. */
  ghost predicate InFile(blocks: seq<Slice>, arr: array<byte>, size: nat) {
    forall j :: 0 <= j < |blocks| ==> blocks[j].arr == arr && blocks[j].off + blocks[j].len <= size
  }

  // ----- what the split means

  lemma {:induction false} ChunksShape(file: seq<byte>, sep: nat)
    requires sep > 0
    ensures |Chunks(file, sep)| == CeilDiv(|file|, sep)
    ensures forall b :: b in Chunks(file, sep) ==> |b| == sep
    decreases |file|
  {
    CeilStep(|file|, sep);
    if |file| > sep {
      ChunksShape(file[sep..], sep);
    }
  }

  /** A file at least one block long gives ceil(size / sep) blocks of length sep; a shorter
      file gives one block, the file itself, not padded. */
  lemma SplitShape(file: seq<byte>, sep: nat)
    requires sep > 0
    ensures sep <= |file| ==>
              |Split(file, sep)| == CeilDiv(|file|, sep) >= 1 && forall b :: b in Split(file, sep) ==> |b| == sep
    ensures sep > |file| ==> Split(file, sep) == [file]
  {
    ChunksShape(file, sep);
    CeilStep(|file|, sep);
  }

  lemma {:induction false} JoinChunks(file: seq<byte>, sep: nat)
    requires sep > 0
    ensures var joined := Concat(Chunks(file, sep));
            |file| <= |joined| < |file| + sep && joined == file + ZeroBytes(|joined| - |file|)
    decreases |file|
  {
    if |file| > sep {
      JoinChunks(file[sep..], sep);
      var chunks := Chunks(file, sep);
      assert chunks[1..] == Chunks(file[sep..], sep);
      var tail := Concat(chunks[1..]);
      assert file == file[..sep] + file[sep..];
      assert Concat(chunks) == file[..sep] + tail;
    } else if file != [] {
      assert Chunks(file, sep)[1..] == [];
    }
  }

  /** Joining the blocks gives back the file followed by fewer than sep zero bytes. */
  lemma JoinSplit(file: seq<byte>, sep: nat)
    requires sep > 0
    ensures var joined := Concat(Split(file, sep));
            |file| <= |joined| < |file| + sep && joined == file + ZeroBytes(|joined| - |file|)
  {
    JoinChunks(file, sep);
    if sep > |file| {
      assert [file][1..] == [];
    }
  }
}
