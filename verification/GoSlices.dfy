/** Go byte slices: a window on a shared backing array. The capacity of a slice runs to
    the end of its array, so append writes in place exactly when there is room. */
module GoSlices {
  import opened Numerals

  datatype Slice = Slice(arr: array<byte>, off: nat, len: nat) {
    ghost predicate Valid() {
      off + len <= arr.Length
    }

    function View(): (v: seq<byte>)
      requires Valid()
      reads arr
      ensures |v| == len
    {
      arr[off..off + len]
    }
  }

  /** The built-in append. Growth picks any larger capacity. */
  method Append(s: Slice, extra: seq<byte>) returns (r: Slice)
    requires s.Valid()
    modifies s.arr
    ensures r.Valid() && r.View() == old(s.View()) + extra
    ensures s.off + s.len + |extra| <= s.arr.Length ==> r.arr == s.arr && r.off == s.off
    ensures s.off + s.len + |extra| > s.arr.Length ==> fresh(r.arr) && s.arr[..] == old(s.arr[..])
    ensures forall i :: 0 <= i < s.arr.Length && !(s.off + s.len <= i < s.off + s.len + |extra|) ==>
              s.arr[i] == old(s.arr[i])
  {
    var end := s.off + s.len;
    var whole := s.View() + extra;
    if end + |extra| <= s.arr.Length {
      forall i | 0 <= i < |extra| {
        s.arr[end + i] := extra[i];
      }
      r := Slice(s.arr, s.off, s.len + |extra|);
      assert r.View() == whole;
    } else {
      var spare: nat :| spare >= 0;
      var grown := new byte[|whole| + spare](i => 0);
      forall i | 0 <= i < |whole| {
        grown[i] := whole[i];
      }
      r := Slice(grown, 0, |whole|);
      assert r.View() == whole;
    }
  }
}
