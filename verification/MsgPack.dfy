/** The MessagePack primitives of the LXMF codec (node.rs): length-prefixed encoders, and decoders over a cursor that moves
    even when they fail. */
module MsgPack {
  import opened Bytes

  const MAX_BLOB := 16 * 1024 * 1024

  // ----- encoders ---------------------------------------------------------------------------------------

  /** `mp_bin` */
  function Bin(data: bytes): bytes
  {
    (if |data| <= 255 then [0xc4, |data|]
     else if |data| <= 65535 then [0xc5, |data| / 256, |data| % 256]
     else [0xc6] + Be32(|data|)) + data
  }

  /** What `mp_str` writes in front of the bytes: the longest form keeps only two bytes of the length. */
  function StrHeader(n: nat): bytes
  {
    if n <= 31 then [0xa0 + n] else if n <= 255 then [0xd9, n] else [0xda, n / 256 % 256, n % 256]
  }

  /** `mp_str` */
  function Str(s: bytes): bytes
  {
    StrHeader(|s|) + s
  }

  /** The header `mp_array` writes. */
  function ArrayHeader(n: nat): bytes
  {
    if n <= 15 then [0x90 + n] else [0xdc, n / 256 % 256, n % 256]
  }

  /** `mp_array` */
  method MpArray(entries: seq<bytes>) returns (out: bytes)
    ensures out == ArrayHeader(|entries|) + Concat(entries)
  {
    if |entries| <= 15 {
      out := [0x90 + |entries|];
    } else {
      out := [0xdc, |entries| / 256 % 256, |entries| % 256];
    }
    for i := 0 to |entries|
      invariant out == ArrayHeader(|entries|) + Concat(entries[..i])
    {
      ConcatSnoc(entries[..i], entries[i]);
      assert entries[..i + 1] == entries[..i] + [entries[i]];
      out := out + entries[i];
    }
    assert entries[..|entries|] == entries;
  }

  // ----- decoders, as functions of the data and the cursor ----------------------------------------------

  /** `mp_u16` */
  function U16At(data: bytes, pos: nat): (Option<nat>, nat)
  {
    if pos + 2 > |data| then (None, pos) else (Some(FromBe16(data[pos], data[pos + 1])), pos + 2)
  }

  /** `mp_u32`: a length above 16 MiB is refused with the cursor already past it. */
  function U32At(data: bytes, pos: nat): (Option<nat>, nat)
  {
    if pos + 4 > |data| then (None, pos)
    else
      var v := FromBe32(data[pos], data[pos + 1], data[pos + 2], data[pos + 3]);
      (if v > MAX_BLOB then None else Some(v), pos + 4)
  }

  function U8At(data: bytes, pos: nat): (Option<nat>, nat)
  {
    if pos >= |data| then (None, pos) else (Some(data[pos]), pos + 1)
  }

  /** The length that follows the type byte `b` of a string or blob. */
  function BlobLength(data: bytes, pos: nat, b: byte): (Option<nat>, nat)
  {
    if b == 0xc4 || b == 0xd9 then U8At(data, pos)
    else if b == 0xc5 || b == 0xda then U16At(data, pos)
    else if b == 0xc6 then U32At(data, pos)
    else if 0xa0 <= b <= 0xbf then (Some(b - 0xa0), pos)
    else (None, pos)
  }

  /** `mp_read_bytes` */
  function BytesAt(data: bytes, pos: nat): (Option<bytes>, nat)
  {
    if pos >= |data| then (None, pos)
    else
      var (len, p) := BlobLength(data, pos + 1, data[pos]);
      if len.None? || p + len.value > |data| then (None, p)
      else (Some(data[p..p + len.value]), p + len.value)
  }

  /** `mp_read_array_len` */
  function ArrayLenAt(data: bytes, pos: nat): (Option<nat>, nat)
  {
    if pos >= |data| then (None, pos)
    else
      var b := data[pos];
      if 0x90 <= b <= 0x9f then (Some(b - 0x90), pos + 1)
      else if b == 0xdc then U16At(data, pos + 1)
      else if b == 0xdd then U32At(data, pos + 1)
      else (None, pos + 1)
  }

  function Advance(data: bytes, pos: nat, n: nat): nat { Min(pos + n, |data|) }

  /** `mp_skip_inner` behind a type byte that opens no container it knows. Note 0xdc and 0xdd: arrays with long headers
      are skipped as if their element count were a byte count. */
  function SkipLeaf(data: bytes, b: byte, pos: nat): nat
  {
    if b <= 0x7f || 0xe0 <= b || b == 0xc0 || b == 0xc2 || b == 0xc3 then pos
    else if b == 0xca || b == 0xce || b == 0xd2 then Advance(data, pos, 4)
    else if b == 0xcb || b == 0xcf || b == 0xd3 then Advance(data, pos, 8)
    else if b == 0xcc || b == 0xd0 then Advance(data, pos, 1)
    else if b == 0xcd || b == 0xd1 then Advance(data, pos, 2)
    else if 0xa0 <= b <= 0xbf then Advance(data, pos, b - 0xa0)
    else if b == 0xd9 || b == 0xc4 then if pos < |data| then Advance(data, pos, data[pos] as int + 1) else pos
    else if b == 0xda || b == 0xc5 || b == 0xdc then
      match U16At(data, pos) case (Some(n), p) => Advance(data, p, n) case (None, p) => p
    else if b == 0xdb || b == 0xc6 || b == 0xdd then
      match U32At(data, pos) case (Some(n), p) => Advance(data, p, n) case (None, _) => |data|
    else pos
  }

  /** The number of values inside the container that `b` opens, where skipping looks for them, or None. */
  function Container(data: bytes, b: byte, pos: nat): Option<(nat, nat)>
  {
    if 0x90 <= b <= 0x9f then Some((b - 0x90, pos))
    else if 0x80 <= b <= 0x8f then Some((2 * (b - 0x80), pos))
    else if b == 0xde then match U16At(data, pos) case (Some(n), p) => Some((2 * n, p)) case (None, p) => Some((0, p))
    else None
  }

  /** `mp_skip_inner` */
  function SkipAt(data: bytes, pos: nat, depth: nat): nat
    requires depth <= 17
    decreases 17 - depth, 0
  {
    if depth > 16 || pos >= |data| then pos
    else
      match Container(data, data[pos], pos + 1)
      case Some((n, p)) => SkipMany(data, p, depth + 1, n)
      case None => SkipLeaf(data, data[pos], pos + 1)
  }

  function SkipMany(data: bytes, pos: nat, depth: nat, n: nat): nat
    requires depth <= 17
    decreases 17 - depth, n
  {
    if n == 0 then pos else SkipAt(data, SkipMany(data, pos, depth, n - 1), depth)
  }

  // ----- the cursor -------------------------------------------------------------------------------------

  /** `data` with the `&mut usize` that the decoders pass around. */
  class Cursor {
    const data: bytes
    var pos: nat

    constructor (d: bytes, start: nat)
      ensures data == d && pos == start
    {
      data, pos := d, start;
    }

    method U8() returns (r: Option<nat>)
      modifies this
      ensures (r, pos) == U8At(data, old(pos))
    {
      if pos >= |data| {
        return None;
      }
      r := Some(data[pos]);
      pos := pos + 1;
    }

    method U16() returns (r: Option<nat>)
      modifies this
      ensures (r, pos) == U16At(data, old(pos))
    {
      if pos >= |data| || pos + 1 >= |data| {
        return None;
      }
      r := Some(FromBe16(data[pos], data[pos + 1]));
      pos := pos + 2;
    }

    method U32() returns (r: Option<nat>)
      modifies this
      ensures (r, pos) == U32At(data, old(pos))
    {
      if pos + 3 >= |data| {
        return None;
      }
      var v := FromBe32(data[pos], data[pos + 1], data[pos + 2], data[pos + 3]);
      pos := pos + 4;
      if v > MAX_BLOB {
        return None;
      }
      return Some(v);
    }

    method ReadBytes() returns (r: Option<bytes>)
      modifies this
      ensures (r, pos) == BytesAt(data, old(pos))
    {
      if pos >= |data| {
        return None;
      }
      var b := data[pos];
      pos := pos + 1;
      var len: Option<nat> := None;
      if b == 0xc4 || b == 0xd9 {
        len := U8();
      } else if b == 0xc5 || b == 0xda {
        len := U16();
      } else if b == 0xc6 {
        len := U32();
      } else if b / 32 == 5 {
        len := Some(b % 32);
      }
      if len.None? || pos + len.value > |data| {
        return None;
      }
      r := Some(data[pos..pos + len.value]);
      pos := pos + len.value;
    }

    method ReadArrayLen() returns (r: Option<nat>)
      modifies this
      ensures (r, pos) == ArrayLenAt(data, old(pos))
    {
      if pos >= |data| {
        return None;
      }
      var b := data[pos];
      pos := pos + 1;
      if b / 16 == 9 {
        return Some(b % 16);
      } else if b == 0xdc {
        r := U16();
      } else if b == 0xdd {
        r := U32();
      } else {
        return None;
      }
    }

    method SkipOver(n: nat)
      modifies this
      ensures pos == Advance(data, old(pos), n)
    {
      pos := Min(pos + n, |data|);
    }

    /** The branches of `mp_skip_inner` without recursion. */
    method SkipScalar(b: byte)
      modifies this
      ensures pos == SkipLeaf(data, b, old(pos))
    {
      if b <= 0x7f || 0xe0 <= b || b == 0xc0 || b == 0xc2 || b == 0xc3 {
      } else if b == 0xca || b == 0xce || b == 0xd2 {
        SkipOver(4);
      } else if b == 0xcb || b == 0xcf || b == 0xd3 {
        SkipOver(8);
      } else if b == 0xcc || b == 0xd0 {
        SkipOver(1);
      } else if b == 0xcd || b == 0xd1 {
        SkipOver(2);
      } else if b / 32 == 5 {
        SkipOver(b % 32);
      } else if b == 0xd9 || b == 0xc4 {
        if pos < |data| {
          SkipOver(data[pos] as int + 1);
        }
      } else if b == 0xda || b == 0xc5 || b == 0xdc {
        var n := U16();
        if n.Some? {
          SkipOver(n.value);
        }
      } else if b == 0xdb || b == 0xc6 || b == 0xdd {
        var n := U32();
        if n.Some? {
          SkipOver(n.value);
        } else {
          pos := |data|;
        }
      }
    }

    method Skip(depth: nat)
      requires depth <= 17
      modifies this
      ensures pos == SkipAt(data, old(pos), depth)
      decreases 17 - depth
    {
      if depth > 16 || pos >= |data| {
        return;
      }
      var b := data[pos];
      pos := pos + 1;
      var n := 0;
      if b / 16 == 9 {
        n := b % 16;
      } else if b / 16 == 8 {
        n := 2 * (b % 16);
      } else if b == 0xde {
        var pairs := U16();
        if pairs.None? {
          return;
        }
        n := 2 * pairs.value;
      } else {
        SkipScalar(b);
        return;
      }
      ghost var start := pos;
      for i := 0 to n
        invariant pos == SkipMany(data, start, depth + 1, i)
      {
        Skip(depth + 1);
      }
    }
  }

  // ----- what is at a position --------------------------------------------------------------------------

  /** `enc` stands in `data` at `pos`. */
  predicate At(data: bytes, pos: nat, enc: bytes): (at: bool)
    ensures at ==> pos + |enc| <= |data|
    decreases |enc|
  {
    if enc == [] then pos <= |data| else pos < |data| && data[pos] == enc[0] && At(data, pos + 1, enc[1..])
  }

  lemma {:induction false} AtIsSlice(data: bytes, pos: nat, enc: bytes)
    ensures At(data, pos, enc) <==> pos + |enc| <= |data| && data[pos..pos + |enc|] == enc
    decreases |enc|
  {
    if enc != [] && pos < |data| {
      AtIsSlice(data, pos + 1, enc[1..]);
      if pos + |enc| <= |data| {
        assert data[pos..pos + |enc|] == [data[pos]] + data[pos + 1..pos + |enc|];
        assert enc == [enc[0]] + enc[1..];
      }
    }
  }

  lemma AtSplit(data: bytes, pos: nat, a: bytes, b: bytes)
    ensures At(data, pos, a + b) <==> At(data, pos, a) && At(data, pos + |a|, b)
  {
    AtIsSlice(data, pos, a + b);
    AtIsSlice(data, pos, a);
    AtIsSlice(data, pos + |a|, b);
    var end := pos + |a| + |b|;
    if end <= |data| {
      assert data[pos..end] == data[pos..pos + |a|] + data[pos + |a|..end];
      assert (a + b)[..|a|] == a && (a + b)[|a|..] == b;
      assert data[pos..end][..|a|] == data[pos..pos + |a|] && data[pos..end][|a|..] == data[pos + |a|..end];
    }
  }

  lemma AtByte(data: bytes, pos: nat, a: bytes, i: nat)
    requires At(data, pos, a) && i < |a|
    ensures pos + i < |data| && data[pos + i] == a[i]
  {
    AtIsSlice(data, pos, a);
    assert data[pos..pos + |a|][i] == data[pos + i];
  }

  /** Reading back a blob, for every length and whatever follows: exactly the lengths up to 16 MiB survive. */
  lemma BinRoundTripIff(data: bytes, pos: nat, d: bytes)
    requires At(data, pos, Bin(d))
    ensures BytesAt(data, pos) == (Some(d), pos + |Bin(d)|) <==> |d| <= MAX_BLOB
  {
    var n := |Bin(d)| - |d|;
    AtByte(data, pos, Bin(d), 0);
    AtSplit(data, pos, Bin(d)[..n], d);
    AtIsSlice(data, pos + n, d);
    assert Bin(d)[..n] + d == Bin(d);
    if |d| <= 255 {
      AtByte(data, pos, Bin(d), 1);
    } else if |d| <= 65535 {
      AtByte(data, pos, Bin(d), 1);
      AtByte(data, pos, Bin(d), 2);
      Be16RoundTrip(|d|);
    } else {
      BinLongRoundTripIff(data, pos, d);
    }
  }

  lemma BinLongRoundTripIff(data: bytes, pos: nat, d: bytes)
    requires At(data, pos, Bin(d)) && |d| > 65535 && At(data, pos + 5, d)
    ensures BytesAt(data, pos) == (Some(d), pos + |Bin(d)|) <==> |d| <= MAX_BLOB
  {
    var b := Be32(|d|);
    AtIsSlice(data, pos + 5, d);
    forall i | 0 <= i < 5
      ensures data[pos + i] == Bin(d)[i]
    {
      AtByte(data, pos, Bin(d), i);
    }
    assert forall j :: 0 <= j < 4 ==> Bin(d)[j + 1] == b[j];
    assert data[pos + 1] == b[0] && data[pos + 2] == b[1] && data[pos + 3] == b[2] && data[pos + 4] == b[3];
    if |d| <= MAX_BLOB {
      Be32RoundTrip(|d|);
    }
  }

  /** Two bytes of a length are the length modulo 65536. */
  lemma LowBytes(n: nat)
    ensures FromBe16(n / 256 % 256, n % 256) == n % 0x1_0000
  {
    var q := n / 256;
    assert n == 256 * q + n % 256 && q == 256 * (q / 256) + q % 256;
    assert n == 0x1_0000 * (q / 256) + (256 * (q % 256) + n % 256);
  }

  lemma StrShort(data: bytes, pos: nat, n: nat)
    requires n <= 31 && At(data, pos, [0xa0 + n])
    ensures pos < |data| && BlobLength(data, pos + 1, data[pos]) == (Some(n), pos + 1)
  {
    AtByte(data, pos, [0xa0 + n], 0);
  }

  lemma StrMedium(data: bytes, pos: nat, n: byte)
    requires At(data, pos, [0xd9, n])
    ensures pos < |data| && BlobLength(data, pos + 1, data[pos]) == (Some(n as nat), pos + 2)
  {
    AtByte(data, pos, [0xd9, n], 0);
    AtByte(data, pos, [0xd9, n], 1);
  }

  lemma StrLong(data: bytes, pos: nat, n: nat)
    requires At(data, pos, [0xda, n / 256 % 256, n % 256])
    ensures pos < |data| && BlobLength(data, pos + 1, data[pos]) == (Some(n % 0x1_0000), pos + 3)
  {
    var header := [0xda, n / 256 % 256, n % 256];
    AtByte(data, pos, header, 0);
    AtByte(data, pos, header, 1);
    AtByte(data, pos, header, 2);
    LowBytes(n);
  }

  /** Reading behind a length `len` in front of `s`. */
  lemma BlobOfLength(data: bytes, pos: nat, s: bytes, p: nat, len: nat)
    requires pos < |data| && BlobLength(data, pos + 1, data[pos]) == (Some(len), p) && At(data, p, s) && len <= |s|
    ensures BytesAt(data, pos) == (Some(s), p + |s|) <==> len == |s|
  {
    AtIsSlice(data, p, s);
  }

  /** The length read is the length written, up to 65535. */
  lemma StrLengthRead(data: bytes, pos: nat, n: nat) returns (len: nat)
    requires At(data, pos, StrHeader(n))
    ensures pos < |data| && BlobLength(data, pos + 1, data[pos]) == (Some(len), pos + |StrHeader(n)|)
    ensures len <= n && (len == n <==> n <= 65535)
  {
    len := if n <= 255 then n else n % 0x1_0000;
    if n <= 31 {
      StrShort(data, pos, n);
    } else if n <= 255 {
      StrMedium(data, pos, n);
    } else {
      StrLong(data, pos, n);
    }
  }

  /** The same for strings: exactly the lengths up to 65535 survive. */
  lemma StrRoundTripIff(data: bytes, pos: nat, s: bytes)
    requires At(data, pos, Str(s))
    ensures BytesAt(data, pos) == (Some(s), pos + |Str(s)|) <==> |s| <= 65535
  {
    var header := StrHeader(|s|);
    AtSplit(data, pos, header, s);
    var len := StrLengthRead(data, pos, |s|);
    BlobOfLength(data, pos, s, pos + |header|, len);
  }

  lemma ArrayHeaderRoundTripIff(data: bytes, pos: nat, n: nat)
    requires At(data, pos, ArrayHeader(n))
    ensures ArrayLenAt(data, pos) == (Some(n), pos + |ArrayHeader(n)|) <==> n <= 65535
  {
    AtByte(data, pos, ArrayHeader(n), 0);
    if n > 15 {
      AtByte(data, pos, ArrayHeader(n), 1);
      AtByte(data, pos, ArrayHeader(n), 2);
    }
  }
}

/** Loops that read a counted list of items, and the lists they read. */
module CountedLoops {
  import opened Bytes
  import opened MsgPack

  /** `for _ in 0..n`, with the cursor as part of the state; a step that answers None breaks out. */
  function Repeat<A>(step: (A, nat) -> Option<(A, nat)>, acc: A, pos: nat, n: nat): (A, nat)
    decreases n
  {
    if n == 0 then (acc, pos)
    else
      match step(acc, pos)
      case None => (acc, pos)
      case Some((next, p)) => Repeat(step, next, p, n - 1)
  }

  function Fold<A, F>(add: (A, F) -> A, acc: A, fs: seq<F>): A
    decreases |fs|
  {
    if fs == [] then acc else Fold(add, add(acc, fs[0]), fs[1..])
  }

  /** The step reads item `f` wherever it stands. */
  ghost predicate Reads<A(!new), F>(step: (A, nat) -> Option<(A, nat)>, add: (A, F) -> A, enc: F -> bytes, data: bytes, f: F)
  {
    forall a, p: nat :: At(data, p, enc(f)) ==> step(a, p) == Some((add(a, f), p + |enc(f)|))
  }

  ghost predicate ReadsAll<A(!new), F>(step: (A, nat) -> Option<(A, nat)>, add: (A, F) -> A, enc: F -> bytes, data: bytes,
                                       fs: seq<F>)
  {
    forall i :: 0 <= i < |fs| ==> Reads(step, add, enc, data, fs[i])
  }

  /** If each item is read where it stands, the loop reads them all. */
  lemma {:induction false} RepeatReads<A(!new), F>(step: (A, nat) -> Option<(A, nat)>, add: (A, F) -> A, enc: F -> bytes,
                                                   data: bytes, pos: nat, fs: seq<F>, acc: A)
    requires ReadsAll(step, add, enc, data, fs)
    requires At(data, pos, ConcatMap(enc, fs))
    ensures Repeat(step, acc, pos, |fs|) == (Fold(add, acc, fs), pos + |ConcatMap(enc, fs)|)
    decreases |fs|
  {
    if fs != [] {
      var f, rest := fs[0], fs[1..];
      AtSplit(data, pos, enc(f), ConcatMap(enc, rest));
      assert Reads(step, add, enc, data, f);
      RepeatReads(step, add, enc, data, pos + |enc(f)|, rest, add(acc, f));
    }
  }

  /** If nothing more can be read behind the items, the loop stops there, however many items were announced. */
  lemma {:induction false} RepeatStops<A(!new), F>(step: (A, nat) -> Option<(A, nat)>, add: (A, F) -> A, enc: F -> bytes,
                                                   data: bytes, pos: nat, fs: seq<F>, n: nat, acc: A, end: nat)
    requires ReadsAll(step, add, enc, data, fs) && At(data, pos, ConcatMap(enc, fs)) && |fs| <= n
    requires end == pos + |ConcatMap(enc, fs)| && forall a :: step(a, end) == None
    ensures Repeat(step, acc, pos, n) == (Fold(add, acc, fs), end)
    decreases |fs|
  {
    if fs != [] {
      var f, rest := fs[0], fs[1..];
      AtSplit(data, pos, enc(f), ConcatMap(enc, rest));
      assert Reads(step, add, enc, data, f);
      RepeatStops(step, add, enc, data, pos + |enc(f)|, rest, n - 1, add(acc, f), end);
    }
  }

  lemma {:induction false} FoldAppend<A, F>(add: (A, F) -> A, acc: A, a: seq<F>, b: seq<F>)
    ensures Fold(add, acc, a + b) == Fold(add, Fold(add, acc, a), b)
    decreases |a|
  {
    if a == [] {
      assert a + b == b;
    } else {
      assert (a + b)[1..] == a[1..] + b && (a + b)[0] == a[0];
      FoldAppend(add, add(acc, a[0]), a[1..], b);
    }
  }

  lemma FoldOne<A, F>(add: (A, F) -> A, acc: A, fs: seq<F>)
    requires |fs| <= 1
    ensures Fold(add, acc, fs) == if fs == [] then acc else add(acc, fs[0])
  {
    if fs != [] {
      assert fs[1..] == [];
    }
  }
}
