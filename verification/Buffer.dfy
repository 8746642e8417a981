// Writing into byte buffers (librtmp/amf.c): what a write changes and what it leaves alone.
module Buffer {
  import opened Bytes

  ghost predicate PatchedTo(before: seq<byte>, after: seq<byte>, i: nat, s: seq<byte>) {
    && i + |s| <= |before| == |after|
    && after[..i] == before[..i]
    && after[i..i + |s|] == s
    && after[i + |s|..] == before[i + |s|..]
  }

  // a[i..] starts with s and every other cell is as it was in before.
  ghost predicate Patched(a: array<byte>, before: seq<byte>, i: nat, s: seq<byte>)
    reads a
  {
    a.Length == |before| && PatchedTo(before, a[..], i, s)
  }

  method EncodeInt24(a: array<byte>, i: nat, x: nat) returns (next: nat)
    requires i + 3 <= a.Length
    modifies a
    ensures next == i + 3 && Patched(a, old(a[..]), i, Be24(x))
  {
    a[i + 2] := x % 0x100;
    a[i + 1] := x / 0x100 % 0x100;
    a[i] := x / 0x1_0000 % 0x100;
    next := i + 3;
  }

  method EncodeInt32(a: array<byte>, i: nat, x: nat) returns (next: nat)
    requires i + 4 <= a.Length
    modifies a
    ensures next == i + 4 && Patched(a, old(a[..]), i, Be32(x))
  {
    a[i + 3] := x % 0x100;
    a[i + 2] := x / 0x100 % 0x100;
    a[i + 1] := x / 0x1_0000 % 0x100;
    a[i] := x / 0x100_0000 % 0x100;
    next := i + 4;
  }

  // Two patches, the second right behind the first, are one.
  lemma PatchAgain(before: seq<byte>, middle: seq<byte>, after: seq<byte>, i: nat, s: seq<byte>, t: seq<byte>)
    requires PatchedTo(before, middle, i, s) && PatchedTo(middle, after, i + |s|, t)
    ensures PatchedTo(before, after, i, s + t)
  {
    assert after[..i] == after[..i + |s|][..i];
    assert after[i..i + |s|] == after[..i + |s|][i..];
    assert after[i..i + |s + t|] == after[i..i + |s|] + after[i + |s|..i + |s| + |t|];
    var j := i + |s| + |t|;
    assert before[j..] == before[i + |s|..][|t|..];
    assert middle[j..] == middle[i + |s|..][|t|..];
  }

  lemma SliceOfSlice<T>(s: seq<T>, from: nat, mid: nat, to: nat)
    requires from <= mid <= to <= |s|
    ensures s[from..to][..mid - from] == s[from..mid]
    ensures s[from..to][mid - from..] == s[mid..to]
  {
  }

  // memcpy.
  method Copy(a: array<byte>, i: nat, s: seq<byte>)
    requires i + |s| <= a.Length
    modifies a
    ensures Patched(a, old(a[..]), i, s)
  {
    forall k | 0 <= k < |s| {
      a[i + k] := s[k];
    }
  }

  function Put(x: seq<byte>, k: nat, s: seq<byte>): (r: seq<byte>)
    requires k + |s| <= |x|
    ensures |r| == |x|
  {
    x[..k] + s + x[k + |s|..]
  }

  // A patch inside the middle of three parts.
  lemma PatchMiddle(a: seq<byte>, x: seq<byte>, b: seq<byte>, after: seq<byte>, k: nat, s: seq<byte>)
    requires k + |s| <= |x| && PatchedTo(a + x + b, after, |a| + k, s)
    ensures after == a + Put(x, k, s) + b
  {
    var before, r, i := a + x + b, a + Put(x, k, s) + b, |a| + k;
    forall j | 0 <= j < |after|
      ensures after[j] == r[j]
    {
      if j < i {
        assert after[j] == after[..i][j] == before[..i][j];
      } else if j < i + |s| {
        assert after[j] == after[i..i + |s|][j - i];
      } else {
        assert after[j] == after[i + |s|..][j - i - |s|] == before[i + |s|..][j - i - |s|];
      }
    }
  }
}
