/** Machine integers, byte strings and small sequence facts shared by every component. */
module Bytes {
  type byte = x: int | 0 <= x < 0x100
  type u8 = x: int | 0 <= x < 0x100
  type u16 = x: int | 0 <= x < 0x1_0000
  type bytes = seq<byte>

  datatype Option<+T> = None | Some(value: T)

  /** Big-endian u16. */
  function Be16(n: u16): (b: bytes)
    ensures |b| == 2
  {
    [n / 256, n % 256]
  }

  function FromBe16(hi: byte, lo: byte): u16 { hi * 256 + lo }

  /** Big-endian u32; like `as u32`, the number is first reduced modulo 2^32. */
  function Be32(n: nat): (b: bytes)
    ensures |b| == 4
  {
    [n / 0x100_0000 % 256, n / 0x1_0000 % 256, n / 256 % 256, n % 256]
  }

  function FromBe32(a: byte, b: byte, c: byte, d: byte): nat
  {
    a * 0x100_0000 + b * 0x1_0000 + c * 256 + d
  }

  lemma Be16RoundTrip(n: u16)
    ensures FromBe16(Be16(n)[0], Be16(n)[1]) == n
  {
  }

  lemma Be32RoundTrip(n: nat)
    requires n < 0x1_0000_0000
    ensures var b := Be32(n); FromBe32(b[0], b[1], b[2], b[3]) == n
  {
    var q1, q2, q3 := n / 256, n / 0x1_0000, n / 0x100_0000;
    assert q2 == q1 / 256 && q3 == q2 / 256 && q3 < 256;
  }

  /** `byte ^ 0x20`: bit 5 is flipped. */
  function Flip20(b: byte): (r: byte)
    ensures r != b
  {
    if b / 32 % 2 == 0 then b + 32 else b - 32
  }

  lemma Flip20Involutive(b: byte)
    ensures Flip20(Flip20(b)) == b
  {
  }

  /** Concatenation of a list of sequences, in order. */
  function Concat<T>(ss: seq<seq<T>>): seq<T>
  {
    if ss == [] then [] else ss[0] + Concat(ss[1..])
  }

  lemma {:induction false} ConcatAppend<T>(a: seq<seq<T>>, b: seq<seq<T>>)
    ensures Concat(a + b) == Concat(a) + Concat(b)
  {
    if a == [] {
      assert a + b == b;
    } else {
      assert (a + b)[1..] == a[1..] + b;
      ConcatAppend(a[1..], b);
    }
  }

  lemma ConcatSnoc<T>(a: seq<seq<T>>, x: seq<T>)
    ensures Concat(a + [x]) == Concat(a) + x
  {
    ConcatAppend(a, [x]);
    assert Concat([x]) == x + Concat([]) == x;
  }

  lemma Associate(a: bytes, b: bytes, c: bytes)
    ensures (a + b) + c == a + (b + c)
  {
  }

  /** The encodings of a list, one after the other. */
  function ConcatMap<F>(enc: F -> bytes, fs: seq<F>): bytes
  {
    if fs == [] then [] else enc(fs[0]) + ConcatMap(enc, fs[1..])
  }

  lemma {:induction false} ConcatMapAppend<F>(enc: F -> bytes, a: seq<F>, b: seq<F>)
    ensures ConcatMap(enc, a + b) == ConcatMap(enc, a) + ConcatMap(enc, b)
    decreases |a|
  {
    if a == [] {
      assert a + b == b;
    } else {
      assert (a + b)[1..] == a[1..] + b && (a + b)[0] == a[0];
      ConcatMapAppend(enc, a[1..], b);
    }
  }

  lemma ConcatMapSnoc<F>(enc: F -> bytes, a: seq<F>, f: F)
    ensures ConcatMap(enc, a + [f]) == ConcatMap(enc, a) + enc(f)
  {
    ConcatMapAppend(enc, a, [f]);
    var one := [f];
    assert one[1..] == [];
    assert ConcatMap(enc, one) == enc(f) + ConcatMap(enc, one[1..]) == enc(f);
  }

  /** The results of those inputs that have one, in order. */
  function Collect<T>(f: bytes -> Option<T>, xs: seq<bytes>): seq<T>
  {
    if xs == [] then [] else (match f(xs[0]) case Some(y) => [y] case None => []) + Collect(f, xs[1..])
  }

  lemma CollectOne<T>(f: bytes -> Option<T>, x: bytes)
    ensures Collect(f, [x]) == match f(x) case Some(y) => [y] case None => []
  {
    var one := [x];
    assert one[1..] == [];
  }

  lemma {:induction false} CollectAppend<T>(f: bytes -> Option<T>, a: seq<bytes>, b: seq<bytes>)
    ensures Collect(f, a + b) == Collect(f, a) + Collect(f, b)
    decreases |a|
  {
    if a == [] {
      assert a + b == b;
    } else {
      CollectAppend(f, a[1..], b);
      assert (a + b)[1..] == a[1..] + b && (a + b)[0] == a[0];
      var head := match f(a[0]) case Some(y) => [y] case None => [];
      assert head + (Collect(f, a[1..]) + Collect(f, b)) == (head + Collect(f, a[1..])) + Collect(f, b);
    }
  }

  lemma {:induction false} CollectAll<T>(f: bytes -> Option<T>, xs: seq<bytes>, ys: seq<T>)
    requires |xs| == |ys| && forall i :: 0 <= i < |xs| ==> f(xs[i]) == Some(ys[i])
    ensures Collect(f, xs) == ys
    decreases |xs|
  {
    if xs != [] {
      CollectAll(f, xs[1..], ys[1..]);
      assert [ys[0]] + ys[1..] == ys;
    }
  }

  function Min(a: int, b: int): int { if a <= b then a else b }
  function MaxReal(a: real, b: real): real { if a >= b then a else b }
}
