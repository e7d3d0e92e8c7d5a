/** Random text and filler files. */
module Filler {
  import opened Numerals
  import opened ModArith

  const LOWER := "abcdefghijklmnopqrstuvwxyz"
  const UPPER := "ABCDEFGHIJKLMNOPQRSTUVWXYZ"
  const SIGNS := "!@#$%^&*()[]{}+-*/_=.<>?:|,~"
  const LETTERS := LOWER + UPPER + "0123456789" + SIGNS
  const LETTERS_PER_DRAW := 10 // 63 bits, 6 at a time
  const LINE := 4096
  const FILLER_SIZE := 8 * 1024 * 1024

  /** x shifted right by j letters. */
  function Shifted(x: nat, j: nat): nat {
    PowPositive(64, j);
    x / Pow(64, j)
  }

  /** Base-64 digit j of x, least significant first. */
  function Digit(x: nat, j: nat): (d: nat)
    ensures d < 64
  {
    Shifted(x, j) % 64
  }

  lemma {:induction false} PowPositive(b: nat, e: nat)
    requires b > 0
    ensures Pow(b, e) > 0
    decreases e
  {
    if e > 0 {
      PowPositive(b, e - 1);
      assert b * Pow(b, e - 1) > 0;
    }
  }

  lemma ShiftOnce(x: nat, j: nat)
    ensures Shifted(x, j) / 64 == Shifted(x, j + 1)
    ensures Shifted(x, 0) == x
  {
    PowPositive(64, j);
    DivDiv(x, Pow(64, j), 64);
  }

  lemma DivDiv(x: nat, a: nat, b: nat)
    requires a > 0 && b > 0
    ensures b * a > 0 && (x / a) / b == x / (b * a)
  {
    var q, r := x / a, x % a;
    var p, s := q / b, q % b;
    DivMod(x, a);
    DivMod(q, b);
    Regroup(p, b, s, a, q);
    QuotientUnique(p, s * a + r, b * a);
  }

  lemma Regroup(p: nat, b: nat, s: nat, a: nat, q: nat)
    requires q == p * b + s && s < b
    ensures q * a == p * (b * a) + s * a
    ensures s * a + a <= b * a
  {
    assert q * a == (p * b) * a + s * a;
    assert (s + 1) * a <= b * a;
  }

  /** The letter at position k: base-64 digit k mod 10 of draw k div 10. */
  function Letter(letters: string, draws: nat -> nat, k: nat): char
    requires |letters| >= 64
  {
    letters[Digit(draws(k / LETTERS_PER_DRAW), k % LETTERS_PER_DRAW)]
  }

  function Text(letters: string, draws: nat -> nat, n: nat): (s: string)
    requires |letters| >= 64
    ensures |s| == n
  {
    seq(n, k requires k >= 0 => Letter(letters, draws, k))
  }

  lemma TextNext(letters: string, draws: nat -> nat, n: nat)
    requires |letters| >= 64
    ensures Text(letters, draws, n + 1) == Text(letters, draws, n) + [Letter(letters, draws, n)]
  {
  }

  lemma LetterOfDraw(letters: string, draws: nat -> nat, d: nat, taken: nat)
    requires |letters| >= 64 && taken < LETTERS_PER_DRAW
    ensures Letter(letters, draws, d * LETTERS_PER_DRAW + taken) == letters[Shifted(draws(d), taken) % 64]
  {
  }

  /** `draws` are the numbers the seeded source delivers, in order. */
  method RandStr(n: nat, draws: nat -> nat) returns (sb: string)
    ensures sb == Text(LETTERS, draws, n) && |sb| == n
    ensures forall k :: 0 <= k < n ==>
              sb[k] == LETTERS[Digit(draws(k / LETTERS_PER_DRAW), k % LETTERS_PER_DRAW)]
  {
    sb := RandStrOver(LETTERS, n, draws);
  }

  method RandStrOver(letters: string, n: nat, draws: nat -> nat) returns (sb: string)
    requires |letters| >= 64
    ensures sb == Text(letters, draws, n)
  {
    sb := "";
    var i: int, cache, remain := n - 1, draws(0), LETTERS_PER_DRAW;
    var d := 0; // the draw in the cache
    ShiftOnce(draws(0), 0);
    while i >= 0
      invariant -1 <= i < n && |sb| == n - 1 - i
      invariant 0 <= remain <= LETTERS_PER_DRAW
      invariant |sb| == d * LETTERS_PER_DRAW + LETTERS_PER_DRAW - remain
      invariant cache == Shifted(draws(d), LETTERS_PER_DRAW - remain)
      invariant sb == Text(letters, draws, |sb|)
    {
      if remain == 0 {
        d := d + 1;
        cache, remain := draws(d), LETTERS_PER_DRAW;
        ShiftOnce(draws(d), 0);
      }
      ShiftOnce(draws(d), LETTERS_PER_DRAW - remain);
      LetterOfDraw(letters, draws, d, LETTERS_PER_DRAW - remain);
      TextNext(letters, draws, |sb|);
      var idx := cache % 64;
      if idx < |letters| {
        sb := sb + [letters[idx]];
        i := i - 1;
      }
      cache := cache / 64;
      remain := remain - 1;
    }
  }

  // ----- filler files

  /** Row i of a filler: random letters and a newline. */
  function Row(sources: nat -> nat -> nat, i: nat): (row: string)
    ensures |row| == LINE
  {
    Text(LETTERS, sources(i), LINE - 1) + "\n"
  }

  function Rows(sources: nat -> nat -> nat): (rows: nat -> string)
    ensures forall i :: |rows(i)| == LINE
  {
    (i: nat) => Row(sources, i)
  }

  /** What reaches the file when write i stores only its first accepted(i) characters. */
  function Contents(row: nat -> string, accepted: nat -> nat, rows: nat): string {
    if rows == 0 then ""
    else
      var k := accepted(rows - 1);
      Contents(row, accepted, rows - 1) + (if k < |row(rows - 1)| then row(rows - 1)[..k] else row(rows - 1))
  }

  /** Write errors are not looked at. */
  method WriteRows(fsize: nat, sources: nat -> nat -> nat, accepted: nat -> nat) returns (file: string)
    ensures file == Contents(Rows(sources), accepted, fsize / LINE)
  {
    file := "";
    var rows := fsize / LINE;
    for i := 0 to rows
      invariant file == Contents(Rows(sources), accepted, i)
    {
      var s := RandStr(LINE - 1, sources(i));
      var row := s + "\n";
      var k := accepted(i);
      file := file + if k < |row| then row[..k] else row;
    }
  }

  lemma {:induction false} ContentsLength(row: nat -> string, accepted: nat -> nat, rows: nat)
    requires forall i :: |row(i)| == LINE
    ensures |Contents(row, accepted, rows)| <= rows * LINE
    ensures |Contents(row, accepted, rows)| == rows * LINE <==>
            forall i :: 0 <= i < rows ==> accepted(i) >= LINE
    decreases rows
  {
    if rows > 0 {
      ContentsLength(row, accepted, rows - 1);
    }
  }

  /** With complete writes, character k is character k mod 4096 of row k div 4096. */
  lemma {:induction false} ContentsAt(row: nat -> string, accepted: nat -> nat, rows: nat, k: nat)
    requires forall i :: |row(i)| == LINE
    requires forall i :: 0 <= i < rows ==> accepted(i) >= LINE
    requires k < rows * LINE
    ensures |Contents(row, accepted, rows)| == rows * LINE
    ensures Contents(row, accepted, rows)[k] == row(k / LINE)[k % LINE]
    decreases rows
  {
    ContentsLength(row, accepted, rows);
    ContentsLength(row, accepted, rows - 1);
    if k < (rows - 1) * LINE {
      ContentsAt(row, accepted, rows - 1, k);
    } else {
      QuotientUnique(rows - 1, k - (rows - 1) * LINE, LINE);
    }
  }

  lemma NewlineEndsRow(sources: nat -> nat -> nat, i: nat, j: nat)
    requires j < LINE
    ensures Row(sources, i)[j] == '\n' <==> j == LINE - 1
  {
    if j < LINE - 1 {
      LettersAreNotNewlines(Digit(sources(i)(j / LETTERS_PER_DRAW), j % LETTERS_PER_DRAW));
      assert Row(sources, i)[j] == Letter(LETTERS, sources(i), j);
    }
  }

  /** Newlines stand at exactly the positions congruent to 4095; every other character is the letter that
      the row's own source gives for its place in the row. */
  lemma NewlinesAt(sources: nat -> nat -> nat, accepted: nat -> nat, rows: nat, k: nat)
    requires forall i :: 0 <= i < rows ==> accepted(i) >= LINE
    requires k < rows * LINE
    ensures var (file, j) := (Contents(Rows(sources), accepted, rows), k % LINE);
            && |file| == rows * LINE && (file[k] == '\n' <==> j == LINE - 1)
            && (j < LINE - 1 ==>
                  file[k] == LETTERS[Digit(sources(k / LINE)(j / LETTERS_PER_DRAW), j % LETTERS_PER_DRAW)])
  {
    ContentsAt(Rows(sources), accepted, rows, k);
    NewlineEndsRow(sources, k / LINE, k % LINE);
    assert k % LINE < LINE - 1 ==> Row(sources, k / LINE)[k % LINE] == Letter(LETTERS, sources(k / LINE), k % LINE);
  }

  lemma LettersAreNotNewlines(j: nat)
    requires j < |LETTERS|
    ensures LETTERS[j] != '\n'
  {
  }

  /** The size check passes exactly when every row was written completely. */
  lemma SizeCheckExact(sources: nat -> nat -> nat, accepted: nat -> nat)
    ensures |Contents(Rows(sources), accepted, FILLER_SIZE / LINE)| == FILLER_SIZE <==>
            forall i :: 0 <= i < FILLER_SIZE / LINE ==> accepted(i) >= LINE
  {
    ContentsLength(Rows(sources), accepted, FILLER_SIZE / LINE);
  }

  /** Everything outside the program that making a filler depends on. */
  datatype Env = Env(
    sources: nat -> nat -> nat, accepted: nat -> nat,
    openOk: bool, syncOk: bool, hashOk: bool, renameOk: bool, hash: string -> string)

  class Disk {
    var files: map<string, string>

    constructor ()
      ensures files == map[]
    {
      files := map[];
    }

    /** `fpath` is the first free name the clock gives. */
    method GenerateFiller(fpath: string, env: Env) returns (path: string, ok: bool)
      requires fpath !in files && forall c :: env.hash(c) != fpath
      modifies this
      ensures var c := Contents(Rows(env.sources), env.accepted, FILLER_SIZE / LINE);
              && (ok <==> env.openOk && env.syncOk && |c| == FILLER_SIZE && env.hashOk && env.renameOk)
              && (ok ==> path == env.hash(c) && files == old(files)[path := c])
      ensures !ok ==> path == fpath && files == old(files)
    {
      path, ok := WriteCheckRename(fpath, env);
      files := files - {fpath}; // deferred os.Remove
    }

    method WriteCheckRename(fpath: string, env: Env) returns (path: string, ok: bool)
      requires fpath !in files
      modifies this
      ensures var c := Contents(Rows(env.sources), env.accepted, FILLER_SIZE / LINE);
              && (ok <==> env.openOk && env.syncOk && |c| == FILLER_SIZE && env.hashOk && env.renameOk)
              && (ok ==> path == env.hash(c) && files == old(files)[path := c])
      ensures !ok ==> path == fpath && files - {fpath} == old(files)
    {
      if !env.openOk {
        return fpath, false;
      }
      var content := WriteRows(FILLER_SIZE, env.sources, env.accepted);
      files := files[fpath := content];
      if !env.syncOk {
        files := files - {fpath};
        return fpath, false;
      }
      if |files[fpath]| != FILLER_SIZE {
        return fpath, false;
      }
      if !env.hashOk {
        return fpath, false;
      }
      var newPath := env.hash(files[fpath]);
      if !env.renameOk {
        return fpath, false;
      }
      files := (files - {fpath})[newPath := content];
      return newPath, true;
    }
  }
}
