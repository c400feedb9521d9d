/** UTF-8 text as the bytes Rust code scans and slices. */
module Utf8 {
  import opened Text

  type Byte = b: int | 0 <= b < 256

  function EncodeChar(c: char): (r: seq<Byte>)
    ensures |r| == Utf8Width(c)
    ensures !Continuation(r[0]) && (r[0] < 0x80 <==> |r| == 1)
    ensures forall i :: 1 <= i < |r| ==> Continuation(r[i])
  {
    var n := c as int;
    if n < 0x80 then [n]
    else if n < 0x800 then [0xC0 + n / 64, 0x80 + n % 64]
    else if n < 0x10000 then [0xE0 + n / 4096, 0x80 + n / 64 % 64, 0x80 + n % 64]
    else [0xF0 + n / 262144, 0x80 + n / 4096 % 64, 0x80 + n / 64 % 64, 0x80 + n % 64]
  }

  function Encode(s: string): seq<Byte> {
    if s == [] then [] else EncodeChar(s[0]) + Encode(s[1..])
  }

  predicate Continuation(b: Byte) {
    0x80 <= b < 0xC0
  }

  /** `str::is_char_boundary`. */
  predicate IsBoundary(b: seq<Byte>, i: nat) {
    i == 0 || i == |b| || (i < |b| && !Continuation(b[i]))
  }

  lemma {:induction false} EncodedLength(s: string)
    ensures |Encode(s)| == Utf8Len(s)
  {
    if s != [] {
      EncodedLength(s[1..]);
    }
  }

  lemma {:induction false} EncodeAppend(a: string, b: string)
    ensures Encode(a + b) == Encode(a) + Encode(b)
  {
    if a == [] {
      assert a + b == b;
    } else {
      EncodeAppend(a[1..], b);
      assert (a + b)[1..] == a[1..] + b;
      Associate(EncodeChar(a[0]), Encode(a[1..]), Encode(b));
    }
  }

  /** A byte position is a boundary only between two characters. */
  lemma {:induction false} BoundarySplits(s: string, i: nat) returns (k: nat)
    requires i <= |Encode(s)| && IsBoundary(Encode(s), i)
    ensures k <= |s| && Encode(s)[..i] == Encode(s[..k]) && Encode(s)[i..] == Encode(s[k..])
  {
    if i == 0 {
      k := 0;
      assert s[..0] == [] && s[0..] == s;
    } else {
      var first, rest := EncodeChar(s[0]), Encode(s[1..]);
      assert Encode(s) == first + rest;
      assert forall q :: 0 <= q < |first| ==> Encode(s)[q] == first[q];
      assert i - |first| < |rest| && i > |first| ==> Encode(s)[i] == rest[i - |first|];
      var j := BoundarySplits(s[1..], i - |first|);
      k := j + 1;
      assert s[..k][1..] == s[1..][..j] && s[k..] == s[1..][j..];
      assert (first + rest)[..i] == first + rest[..i - |first|];
    }
  }

  lemma EncodeFirst(s: string)
    requires s != []
    ensures Encode(s) != [] && !Continuation(Encode(s)[0])
  {
  }

  /** The end of an encoded character is a boundary; in particular nothing continues an ASCII byte. */
  lemma {:induction false} AfterAscii(s: string, i: nat)
    requires 0 < i <= |Encode(s)| && Encode(s)[i - 1] < 0x80
    ensures IsBoundary(Encode(s), i)
  {
    var first, rest := EncodeChar(s[0]), Encode(s[1..]);
    assert Encode(s) == first + rest;
    if i <= |first| {
      assert Encode(s)[i - 1] == first[i - 1];
      if s[1..] != [] {
        EncodeFirst(s[1..]);
      }
    } else {
      assert Encode(s)[i - 1] == rest[i - |first| - 1];
      AfterAscii(s[1..], i - |first|);
      assert i < |Encode(s)| ==> Encode(s)[i] == rest[i - |first|];
    }
  }

  predicate Aligned(b: seq<Byte>, i: nat, j: nat) {
    i <= j <= |b| && IsBoundary(b, i) && IsBoundary(b, j)
  }

  lemma SliceIsText(s: string, i: nat, j: nat) returns (t: string)
    requires Aligned(Encode(s), i, j)
    ensures Encode(s)[i..j] == Encode(t)
  {
    var k := BoundarySplits(s, j);
    assert Encode(s)[..j] == Encode(s[..k]);
    assert IsBoundary(Encode(s[..k]), i);
    var m := BoundarySplits(s[..k], i);
    t := s[..k][m..];
    assert Encode(s)[i..j] == Encode(s)[..j][i..];
  }
}
