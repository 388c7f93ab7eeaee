/** Values that may stand in a field the receiver does not know, and what skipping makes of them (node.rs). */
module SkippedValues {
  import opened Bytes
  import opened MsgPack

  /** The kinds `mp_skip` supports. A map is the list of its keys and values in turn. A blob is a string, a binary, or an
      array with a long header all of whose elements take one byte each. */
  datatype Value =
    | Scalar(code: byte, body: bytes)
    | Blob(code: byte, blob: bytes)
    | Array(items: seq<Value>)
    | Map(long: bool, flat: seq<Value>)

  /** Bytes behind the code of a scalar; None for codes that are not scalars. */
  function ScalarWidth(code: byte): Option<nat>
  {
    if code <= 0x7f || 0xe0 <= code || code == 0xc0 || code == 0xc2 || code == 0xc3 then Some(0)
    else if code == 0xcc || code == 0xd0 then Some(1)
    else if code == 0xcd || code == 0xd1 then Some(2)
    else if code == 0xca || code == 0xce || code == 0xd2 then Some(4)
    else if code == 0xcb || code == 0xcf || code == 0xd3 then Some(8)
    else None
  }

  /** The length field that a string or blob code takes for `n` bytes, if it can. */
  function BlobHeader(code: byte, n: nat): Option<bytes>
  {
    if 0xa0 <= code <= 0xbf then if n == code - 0xa0 then Some([]) else None
    else if code == 0xd9 || code == 0xc4 then if n <= 255 then Some([n]) else None
    else if code == 0xda || code == 0xc5 || code == 0xdc then if n <= 65535 then Some(Be16(n)) else None
    else if code == 0xdb || code == 0xc6 || code == 0xdd then if n <= MAX_BLOB then Some(Be32(n)) else None
    else None
  }

  predicate Supported(v: Value)
  {
    match v
    case Scalar(code, body) => ScalarWidth(code) == Some(|body|)
    case Blob(code, blob) => BlobHeader(code, |blob|).Some?
    case Array(items) => |items| <= 15 && forall i :: 0 <= i < |items| ==> Supported(items[i])
    case Map(long, flat) =>
      |flat| % 2 == 0 && |flat| / 2 <= (if long then 65535 else 15) && forall i :: 0 <= i < |flat| ==> Supported(flat[i])
  }

  /** Meant for supported values only, to which alone the header arithmetic applies. */
  function Encoded(v: Value): (b: bytes)
    ensures b != []
  {
    match v
    case Scalar(code, body) => [code] + body
    case Blob(code, blob) => [code] + BlobHeaderOf(code, |blob|) + blob
    case Array(items) => [0x90 + |items| % 16] + EncodedAll(items)
    case Map(long, flat) => MapStart(long, |flat| / 2) + EncodedAll(flat)
  }

  function BlobHeaderOf(code: byte, n: nat): bytes
  {
    match BlobHeader(code, n) case Some(h) => h case None => []
  }

  function MapStart(long: bool, n: nat): bytes
  {
    if long then [0xde] + Be16(if n < 0x1_0000 then n else 0) else [0x80 + n % 16]
  }

  function EncodedAll(vs: seq<Value>): bytes
  {
    if vs == [] then [] else EncodedAll(vs[..|vs| - 1]) + Encoded(vs[|vs| - 1])
  }

  /** How many containers are nested around the innermost value. */
  function Depth(v: Value): nat
  {
    match v
    case Array(items) => if items == [] then 0 else 1 + DepthAll(items)
    case Map(_, flat) => if flat == [] then 0 else 1 + DepthAll(flat)
    case _ => 0
  }

  function DepthAll(vs: seq<Value>): nat
  {
    if vs == [] then 0
    else
      var init, last := DepthAll(vs[..|vs| - 1]), Depth(vs[|vs| - 1]);
      if init >= last then init else last
  }

  lemma ScalarSkipped(data: bytes, pos: nat, code: byte, body: bytes)
    requires ScalarWidth(code) == Some(|body|) && At(data, pos, [code] + body)
    ensures Container(data, code, pos + 1).None? && SkipLeaf(data, code, pos + 1) == pos + 1 + |body|
  {
  }

  /** The length field of a blob is read back, and the cursor is then at its content. */
  lemma LengthRead(data: bytes, pos: nat, code: byte, n: nat)
    requires BlobHeader(code, n).Some? && At(data, pos, BlobHeaderOf(code, n))
    requires pos + |BlobHeaderOf(code, n)| + n <= |data|
    ensures Container(data, code, pos).None? && SkipLeaf(data, code, pos) == pos + |BlobHeaderOf(code, n)| + n
  {
    var header := BlobHeaderOf(code, n);
    if |header| == 1 {
      AtByte(data, pos, header, 0);
    } else if |header| == 2 {
      ShortLengthRead(data, pos, n);
    } else if |header| == 4 {
      WideLengthRead(data, pos, n);
    }
  }

  lemma WideLengthRead(data: bytes, pos: nat, n: nat)
    requires n <= MAX_BLOB && At(data, pos, Be32(n))
    ensures U32At(data, pos) == (Some(n), pos + 4)
  {
    AtByte(data, pos, Be32(n), 0);
    AtByte(data, pos, Be32(n), 1);
    AtByte(data, pos, Be32(n), 2);
    AtByte(data, pos, Be32(n), 3);
    Be32RoundTrip(n);
  }

  lemma BlobSkipped(data: bytes, pos: nat, code: byte, blob: bytes)
    requires BlobHeader(code, |blob|).Some? && At(data, pos, [code] + BlobHeaderOf(code, |blob|) + blob)
    ensures Container(data, code, pos + 1).None?
    ensures SkipLeaf(data, code, pos + 1) == pos + 1 + |BlobHeaderOf(code, |blob|)| + |blob|
  {
    var header := BlobHeaderOf(code, |blob|);
    AtSplit(data, pos, [code] + header, blob);
    AtSplit(data, pos, [code], header);
    LengthRead(data, pos + 1, code, |blob|);
  }

  lemma ArrayFound(data: bytes, pos: nat, n: nat)
    requires n <= 15 && At(data, pos, [0x90 + n % 16])
    ensures pos < |data| && Container(data, data[pos], pos + 1) == Some((n, pos + 1))
  {
    AtByte(data, pos, [0x90 + n % 16], 0);
  }

  lemma MapFound(data: bytes, pos: nat, long: bool, n: nat)
    requires n <= (if long then 65535 else 15) && At(data, pos, MapStart(long, n))
    ensures pos < |data| && Container(data, data[pos], pos + 1) == Some((2 * n, pos + |MapStart(long, n)|))
  {
    if long {
      AtSplit(data, pos, [0xde], Be16(n));
      AtByte(data, pos, [0xde], 0);
      ShortLengthRead(data, pos + 1, n);
    } else {
      AtByte(data, pos, MapStart(long, n), 0);
    }
  }

  lemma LeafAt(data: bytes, pos: nat, depth: nat, p: nat)
    requires depth <= 16 && pos < |data| && Container(data, data[pos], pos + 1).None?
    requires SkipLeaf(data, data[pos], pos + 1) == p
    ensures SkipAt(data, pos, depth) == p
  {
  }

  lemma ContainerAt(data: bytes, pos: nat, depth: nat, n: nat, p: nat)
    requires depth <= 16 && pos < |data| && Container(data, data[pos], pos + 1) == Some((n, p))
    ensures SkipAt(data, pos, depth) == SkipMany(data, p, depth + 1, n)
  {
  }

  lemma ArraySkipped(data: bytes, pos: nat, items: seq<Value>, depth: nat)
    requires Supported(Array(items)) && depth <= 16 && At(data, pos, [0x90 + |items| % 16])
    ensures SkipAt(data, pos, depth) == SkipMany(data, pos + 1, depth + 1, |items|)
  {
    ArrayFound(data, pos, |items|);
    ContainerAt(data, pos, depth, |items|, pos + 1);
  }

  lemma MapSkipped(data: bytes, pos: nat, long: bool, flat: seq<Value>, depth: nat, p: nat)
    requires Supported(Map(long, flat)) && depth <= 16 && At(data, pos, MapStart(long, |flat| / 2))
    requires p == pos + |MapStart(long, |flat| / 2)|
    ensures SkipAt(data, pos, depth) == SkipMany(data, p, depth + 1, |flat|)
  {
    MapFound(data, pos, long, |flat| / 2);
    ContainerAt(data, pos, depth, |flat|, p);
  }

  lemma LeafSkipped(data: bytes, pos: nat, v: Value, depth: nat)
    requires (v.Scalar? || v.Blob?) && Supported(v) && depth <= 16 && At(data, pos, Encoded(v))
    ensures SkipAt(data, pos, depth) == pos + |Encoded(v)|
  {
    AtByte(data, pos, Encoded(v), 0);
    if v.Scalar? {
      ScalarSkipped(data, pos, v.code, v.body);
    } else {
      BlobSkipped(data, pos, v.code, v.blob);
    }
    LeafAt(data, pos, depth, pos + |Encoded(v)|);
  }

  ghost predicate AllSupported(vs: seq<Value>)
  {
    forall i :: 0 <= i < |vs| ==> Supported(vs[i])
  }

  /** The values in front of which the cursor stands: `data` holds them one after the other from `pos` to `end`. */
  predicate Ahead(data: bytes, pos: nat, vs: seq<Value>, end: nat)
    decreases |vs|
  {
    if vs == [] then pos == end
    else Supported(vs[0]) && At(data, pos, Encoded(vs[0])) && Ahead(data, pos + |Encoded(vs[0])|, vs[1..], end)
  }

  lemma AheadOf(data: bytes, pos: nat, v: Value, rest: seq<Value>, end: nat)
    ensures Ahead(data, pos, [v] + rest, end)
            <==> Supported(v) && At(data, pos, Encoded(v)) && Ahead(data, pos + |Encoded(v)|, rest, end)
  {
    var vs := [v] + rest;
    assert vs[0] == v && vs[1..] == rest;
  }

  lemma {:induction false} AheadEnds(data: bytes, pos: nat, vs: seq<Value>, end: nat)
    requires Ahead(data, pos, vs, end)
    ensures pos <= end && (pos == end <==> vs == [])
    decreases |vs|
  {
    if vs != [] {
      AheadEnds(data, pos + |Encoded(vs[0])|, vs[1..], end);
    }
  }

  /** The last child belongs to what follows the others. */
  lemma LastAhead(data: bytes, pos: nat, others: bytes, last: Value, rest: seq<Value>, end: nat)
    requires Supported(last) && At(data, pos, others + Encoded(last))
    requires Ahead(data, pos + |others + Encoded(last)|, rest, end)
    ensures At(data, pos, others) && Ahead(data, pos + |others|, [last] + rest, end)
  {
    AtSplit(data, pos, others, Encoded(last));
    AheadOf(data, pos + |others|, last, rest, end);
  }

  lemma InitSupported(vs: seq<Value>)
    requires vs != [] && AllSupported(vs)
    ensures AllSupported(vs[..|vs| - 1]) && Supported(vs[|vs| - 1])
  {
  }

  lemma EncodedLast(vs: seq<Value>)
    requires vs != []
    ensures EncodedAll(vs) == EncodedAll(vs[..|vs| - 1]) + Encoded(vs[|vs| - 1])
  {
  }

  lemma LastJoins(init: seq<Value>, last: Value, rest: seq<Value>)
    ensures init + ([last] + rest) == (init + [last]) + rest
  {
  }

  /** Behind the header of a container stand its children, then what follows it. */
  lemma {:induction false} AheadInside(data: bytes, pos: nat, children: seq<Value>, rest: seq<Value>, end: nat)
    requires At(data, pos, EncodedAll(children)) && AllSupported(children)
    requires Ahead(data, pos + |EncodedAll(children)|, rest, end)
    ensures Ahead(data, pos, children + rest, end)
    decreases |children|
  {
    if children == [] {
      assert children + rest == rest;
    } else {
      var init, last := children[..|children| - 1], children[|children| - 1];
      InitSupported(children);
      EncodedLast(children);
      LastAhead(data, pos, EncodedAll(init), last, rest, end);
      AheadInside(data, pos, init, [last] + rest, end);
      LastJoins(init, last, rest);
      assert children == init + [last];
    }
  }

  /** Skipping a container is skipping its children, which stand at `p`, one level deeper. */
  lemma Opened(data: bytes, pos: nat, v: Value, depth: nat) returns (p: nat, children: seq<Value>)
    requires (v.Array? || v.Map?) && Supported(v) && depth <= 16 && At(data, pos, Encoded(v))
    ensures AllSupported(children) && At(data, p, EncodedAll(children))
    ensures p + |EncodedAll(children)| == pos + |Encoded(v)|
    ensures SkipAt(data, pos, depth) == SkipMany(data, p, depth + 1, |children|)
    ensures Depth(v) == if children == [] then 0 else 1 + DepthAll(children)
  {
    var header;
    if v.Array? {
      header, children := [0x90 + |v.items| % 16], v.items;
    } else {
      header, children := MapStart(v.long, |v.flat| / 2), v.flat;
    }
    AtSplit(data, pos, header, EncodedAll(children));
    p := pos + |header|;
    if v.Array? {
      ArraySkipped(data, pos, children, depth);
    } else {
      MapSkipped(data, pos, v.long, children, depth, p);
    }
  }

  /** Skipping one of the values ahead leaves `left` in front of the others: parts of it that lie too deep to be entered.
      Nothing is left exactly when its nesting stays within sixteen levels. */
  lemma SkipLeaves(data: bytes, pos: nat, depth: nat, v: Value, rest: seq<Value>, end: nat) returns (left: seq<Value>)
    requires depth <= 17 && Ahead(data, pos, [v] + rest, end)
    ensures Ahead(data, SkipAt(data, pos, depth), left + rest, end)
    ensures left == [] <==> depth + Depth(v) <= 16
    decreases 17 - depth, 0, 1
  {
    AheadOf(data, pos, v, rest, end);
    if depth == 17 {
      left := [v];
    } else if v.Array? || v.Map? {
      var p, children := Opened(data, pos, v, depth);
      left := SkipChildren(data, p, depth, children, rest, end);
    } else {
      LeafSkipped(data, pos, v, depth);
      left := [];
      assert left + rest == rest;
    }
  }

  /** A container: its header is consumed, its children are skipped one level deeper. */
  lemma SkipChildren(data: bytes, pos: nat, depth: nat, children: seq<Value>, rest: seq<Value>, end: nat)
    returns (left: seq<Value>)
    requires depth <= 16 && AllSupported(children) && At(data, pos, EncodedAll(children))
    requires Ahead(data, pos + |EncodedAll(children)|, rest, end)
    ensures Ahead(data, SkipMany(data, pos, depth + 1, |children|), left + rest, end)
    ensures left == [] <==> children == [] || depth + 1 + DepthAll(children) <= 16
    decreases 17 - depth, 0, 0
  {
    AheadInside(data, pos, children, rest, end);
    left := SkipManyLeaves(data, pos, depth + 1, children, rest, |children|, end);
    assert children[..|children|] == children && children[|children|..] + rest == rest;
  }

  lemma TakenOut(us: seq<Value>, rest: seq<Value>, k: nat, before: seq<Value>, next: seq<Value>)
    requires 0 < k <= |us| && next == us[k..] + rest
    ensures before + (us[k - 1..] + rest) == before + ([us[k - 1]] + next)
    ensures before != [] ==> before + ([us[k - 1]] + next) == [before[0]] + (before[1..] + ([us[k - 1]] + next))
  {
    assert us[k - 1..] + rest == [us[k - 1]] + next;
    if before != [] {
      assert before == [before[0]] + before[1..];
    }
  }

  lemma PutTogether(more: seq<Value>, others: seq<Value>, u: Value, next: seq<Value>)
    ensures (more + others + [u]) + next == more + (others + ([u] + next))
  {
  }

  /** The same for the first `k` of the values `us`. */
  lemma SkipManyLeaves(data: bytes, pos: nat, depth: nat, us: seq<Value>, rest: seq<Value>, k: nat, end: nat)
    returns (left: seq<Value>)
    requires depth <= 17 && k <= |us| && Ahead(data, pos, us + rest, end)
    ensures Ahead(data, SkipMany(data, pos, depth, k), left + (us[k..] + rest), end)
    ensures left == [] <==> k == 0 || depth + DepthAll(us[..k]) <= 16
    decreases 17 - depth, k, 0
  {
    if k == 0 {
      left := [];
      assert left + (us[0..] + rest) == us + rest;
    } else {
      var before := SkipManyLeaves(data, pos, depth, us, rest, k - 1, end);
      var p, next := SkipMany(data, pos, depth, k - 1), us[k..] + rest;
      TakenOut(us, rest, k, before, next);
      assert us[..k][..k - 1] == us[..k - 1];
      if before == [] {
        assert before + ([us[k - 1]] + next) == [us[k - 1]] + next;
        left := SkipLeaves(data, p, depth, us[k - 1], next, end);
      } else {
        var others := before[1..];
        var more := SkipLeaves(data, p, depth, before[0], others + ([us[k - 1]] + next), end);
        left := more + others + [us[k - 1]];
        PutTogether(more, others, us[k - 1], next);
      }
    }
  }

  /** Skipping consumes exactly one supported value if and only if its nesting stays within sixteen levels, and never more
      than it. */
  lemma ValueSkippedIff(data: bytes, pos: nat, v: Value, depth: nat)
    requires Supported(v) && depth <= 17 && At(data, pos, Encoded(v))
    ensures SkipAt(data, pos, depth) == pos + |Encoded(v)| <==> depth + Depth(v) <= 16
    ensures SkipAt(data, pos, depth) <= pos + |Encoded(v)|
  {
    var end := pos + |Encoded(v)|;
    AheadOf(data, pos, v, [], end);
    var left := SkipLeaves(data, pos, depth, v, [], end);
    assert left + [] == left;
    AheadEnds(data, SkipAt(data, pos, depth), left, end);
  }

  /** Arrays with the two-byte header are not supported in general: skipping one consumes it exactly when all its elements
      happen to encode to one byte each, because the count is taken for a length; it never consumes more. */
  lemma LongArraySkippedIff(data: bytes, pos: nat, items: seq<Value>, depth: nat)
    requires |items| <= 65535 && depth <= 16 && AllSupported(items)
    requires At(data, pos, [0xdc] + Be16(|items|) + EncodedAll(items))
    ensures SkipAt(data, pos, depth) == pos + 3 + |EncodedAll(items)|
            <==> forall i :: 0 <= i < |items| ==> |Encoded(items[i])| == 1
    ensures SkipAt(data, pos, depth) == pos + 3 + |items| <= pos + 3 + |EncodedAll(items)|
  {
    LongHeaderAt(data, pos, Be16(|items|), |items|, EncodedAll(items));
    LongArrayIsBlob(data, pos + 1, |items|);
    EncodedAllAtLeast(items);
    LeafAt(data, pos, depth, Advance(data, pos + 3, |items|));
  }

  /** Of the kinds it does not know, extensions and maps with the widest header among them, skipping consumes the type byte
      only. */
  predicate Unknown(code: byte)
  {
    code == 0xc1 || 0xc7 <= code <= 0xc9 || 0xd4 <= code <= 0xd8 || code == 0xdf
  }

  lemma UnknownSkipped(data: bytes, pos: nat, code: byte, body: bytes, depth: nat)
    requires Unknown(code) && depth <= 16 && At(data, pos, [code] + body)
    ensures SkipAt(data, pos, depth) == pos + 1
  {
    AtByte(data, pos, [code] + body, 0);
    LeafAt(data, pos, depth, pos + 1);
  }

  /** Skipping never goes back. */
  lemma {:induction false} SkipGoesOn(data: bytes, pos: nat, depth: nat)
    requires depth <= 17 && pos <= |data|
    ensures pos <= SkipAt(data, pos, depth) <= |data|
    decreases 17 - depth, 0
  {
    if depth <= 16 && pos < |data| {
      match Container(data, data[pos], pos + 1) {
        case Some((n, p)) => SkipManyGoesOn(data, p, depth + 1, n);
        case None =>
      }
    }
  }

  lemma {:induction false} SkipManyGoesOn(data: bytes, pos: nat, depth: nat, n: nat)
    requires depth <= 17 && pos <= |data|
    ensures pos <= SkipMany(data, pos, depth, n) <= |data|
    decreases 17 - depth, n
  {
    if n > 0 {
      SkipManyGoesOn(data, pos, depth, n - 1);
      SkipGoesOn(data, SkipMany(data, pos, depth, n - 1), depth);
    }
  }

  lemma LongHeaderAt(data: bytes, pos: nat, h: bytes, n: u16, rest: bytes)
    requires h == Be16(n) && At(data, pos, [0xdc] + h + rest)
    ensures pos + 3 + |rest| <= |data| && data[pos] == 0xdc && U16At(data, pos + 1) == (Some(n as nat), pos + 3)
  {
    AtSplit(data, pos, [0xdc] + h, rest);
    AtSplit(data, pos, [0xdc], h);
    AtByte(data, pos, [0xdc], 0);
    ShortLengthRead(data, pos + 1, n);
  }

  lemma LongArrayIsBlob(data: bytes, pos: nat, n: nat)
    requires U16At(data, pos) == (Some(n), pos + 2)
    ensures Container(data, 0xdc, pos).None? && SkipLeaf(data, 0xdc, pos) == Advance(data, pos + 2, n)
  {
  }

  lemma ShortLengthRead(data: bytes, pos: nat, n: u16)
    requires At(data, pos, Be16(n))
    ensures U16At(data, pos) == (Some(n as nat), pos + 2)
  {
    AtByte(data, pos, Be16(n), 0);
    AtByte(data, pos, Be16(n), 1);
    Be16RoundTrip(n);
  }

  lemma {:induction false} EncodedAllAtLeast(vs: seq<Value>)
    ensures |EncodedAll(vs)| >= |vs|
    ensures |EncodedAll(vs)| == |vs| <==> forall i :: 0 <= i < |vs| ==> |Encoded(vs[i])| == 1
    decreases |vs|
  {
    if vs != [] {
      var init, last := vs[..|vs| - 1], vs[|vs| - 1];
      EncodedAllAtLeast(init);
      EncodedLast(vs);
      assert |EncodedAll(vs)| == |EncodedAll(init)| + |Encoded(last)| && |Encoded(last)| >= 1;
      assert forall i :: 0 <= i < |init| ==> init[i] == vs[i];
    }
  }
}

/** The LXMF payload: title, body and the map of fields (node.rs). Strings are their UTF-8 bytes; `utf8` says which byte
    strings are valid. */
module Lxmf {
  import opened Bytes
  import opened MsgPack
  import opened CountedLoops
  import opened SkippedValues

  const FIELD_FILE_ATTACHMENTS: byte := 0x05
  const FIELD_IMAGE: byte := 0x06

  /** "image/jpeg" and "file" */
  const IMAGE_JPEG: bytes := [0x69, 0x6d, 0x61, 0x67, 0x65, 0x2f, 0x6a, 0x70, 0x65, 0x67]
  const FILE: bytes := [0x66, 0x69, 0x6c, 0x65]

  /** A name (or MIME type) and data. */
  datatype Media = Media(name: bytes, data: bytes)

  datatype Decoded = Decoded(title: bytes, body: bytes, image: Option<Media>, files: seq<Media>)

  /** The readers below the level of fields: of strings and blobs, of array headers, of values to skip, and the check of a
      string's encoding. */
  datatype Primitives = Primitives(blob: (bytes, nat) -> (Option<bytes>, nat), arrayLen: (bytes, nat) -> (Option<nat>, nat),
                                   skip: (bytes, nat) -> nat, utf8: bytes -> bool)

  /** The decoder's own. */
  function Actual(utf8: bytes -> bool): Primitives
  {
    Primitives(BytesAt, ArrayLenAt, (data, pos) => SkipAt(data, pos, 0), utf8)
  }

  function Text(io: Primitives, b: bytes, fallback: bytes): bytes
  {
    if io.utf8(b) then b else fallback
  }

  // ----- the encoder ------------------------------------------------------------------------------------

  function Pair(m: Media): bytes
  {
    [0x92] + Str(m.name) + Bin(m.data)
  }

  function Pairs(ms: seq<Media>): bytes
  {
    ConcatMap(Pair, ms)
  }

  /** One entry of the map of fields, of whatever sender; the key of another kind of field is the encoding of any value. */
  datatype Field = Image(image: Media) | Files(files: seq<Media>) | Other(key: bytes, value: Value)

  function FieldBytes(f: Field): bytes
  {
    match f
    case Image(m) => [FIELD_IMAGE] + Pair(m)
    case Files(ms) => [FIELD_FILE_ATTACHMENTS] + (ArrayHeader(|ms|) + Pairs(ms))
    case Other(key, v) => key + Encoded(v)
  }

  /** The fields that `build_fields_msgpack` writes: an image with data, and files if there are any. */
  function OwnFields(image: Option<Media>, files: seq<Media>): seq<Field>
  {
    (if image.Some? && image.value.data != [] then [Image(image.value)] else [])
    + (if files != [] then [Files(files)] else [])
  }

  function FieldsBytes(fs: seq<Field>): bytes
  {
    ConcatMap(FieldBytes, fs)
  }

  /** `build_fields_msgpack`, from the decoded media on. */
  method BuildFields(image: Option<Media>, files: seq<Media>) returns (out: bytes)
    ensures out == [0x80 + |OwnFields(image, files)|] + FieldsBytes(OwnFields(image, files))
  {
    var fields: seq<(byte, bytes)> := [];
    if image.Some? && image.value.data != [] {
      fields := fields + [(FIELD_IMAGE, [0x92] + Str(image.value.name) + Bin(image.value.data))];
    }
    if files != [] {
      var arr := EncodeFiles(files);
      fields := fields + [(FIELD_FILE_ATTACHMENTS, arr)];
    }
    out := EmitFields(fields, OwnFields(image, files));
  }

  method EncodeFiles(files: seq<Media>) returns (arr: bytes)
    ensures arr == ArrayHeader(|files|) + Pairs(files)
  {
    var entries: seq<bytes> := [];
    for i := 0 to |files|
      invariant |entries| == i && Concat(entries) == Pairs(files[..i])
    {
      ConcatSnoc(entries, Pair(files[i]));
      ConcatMapSnoc(Pair, files[..i], files[i]);
      assert files[..i + 1] == files[..i] + [files[i]];
      entries := entries + [[0x92] + Str(files[i].name) + Bin(files[i].data)];
    }
    assert files[..|files|] == files;
    arr := MpArray(entries);
  }

  method EmitFields(fields: seq<(byte, bytes)>, ghost own: seq<Field>) returns (out: bytes)
    requires |fields| == |own| <= 2
    requires forall j :: 0 <= j < |own| ==> [fields[j].0] + fields[j].1 == FieldBytes(own[j])
    ensures out == [0x80 + |own|] + FieldsBytes(own)
  {
    if fields == [] {
      return [0x80];
    }
    out := [0x80 + |fields|];
    for i := 0 to |fields|
      invariant out == [0x80 + |own|] + FieldsBytes(own[..i])
    {
      ConcatMapSnoc(FieldBytes, own[..i], own[i]);
      assert own[..i + 1] == own[..i] + [own[i]];
      out := out + [fields[i].0];
      out := out + fields[i].1;
    }
    assert own[..|own|] == own;
  }

  /** `encode_lxmf_msgpack`; `timestamp` is the eight bytes of the float. */
  function EncodePayload(timestamp: bytes, title: bytes, content: bytes, fieldsMp: bytes): bytes
    requires |timestamp| == 8
  {
    [0x94, 0xcb] + timestamp + Bin(title) + Bin(content) + fieldsMp
  }

  // ----- the decoder ------------------------------------------------------------------------------------

  /** The two reads inside a `[name, data]` pair: the second happens even when the first fails. */
  function PairAt(io: Primitives, data: bytes, pos: nat, fallback: bytes): (Option<Media>, nat)
  {
    var (name, p) := io.blob(data, pos);
    var (body, q) := io.blob(data, p);
    (if name.Some? && body.Some? then Some(Media(Text(io, name.value, fallback), body.value)) else None, q)
  }

  /** One entry of the list of attachments; anything but a pair is skipped. */
  function FileAt(io: Primitives, data: bytes, files: seq<Media>, pos: nat): (seq<Media>, nat)
  {
    if pos < |data| && data[pos] == 0x92 then
      var (m, p) := PairAt(io, data, pos + 1, FILE);
      (if m.Some? then files + [m.value] else files, p)
    else (files, io.skip(data, pos))
  }

  function FileStep(io: Primitives, data: bytes): (seq<Media>, nat) -> Option<(seq<Media>, nat)>
  {
    (files, p) => Some(FileAt(io, data, files, p))
  }

  /** The loop over announced attachments. */
  function FilesAt(io: Primitives, data: bytes, pos: nat, n: nat, files: seq<Media>): (seq<Media>, nat)
  {
    Repeat(FileStep(io, data), files, pos, n)
  }

  datatype Fields = Fields(image: Option<Media>, files: seq<Media>)

  /** One field: what follows its key. */
  function FieldAt(io: Primitives, data: bytes, pos: nat, key: byte, acc: Fields): (Fields, nat)
  {
    if key == FIELD_IMAGE then
      if pos < |data| && data[pos] == 0x92 then
        var (m, p) := PairAt(io, data, pos + 1, IMAGE_JPEG);
        (if m.Some? then acc.(image := m) else acc, p)
      else (acc, io.skip(data, pos))
    else if key == FIELD_FILE_ATTACHMENTS then
      var (n, p) := io.arrayLen(data, pos);
      var (files, q) := FilesAt(io, data, p, if n.Some? then n.value else 0, acc.files);
      (acc.(files := files), q)
    else (acc, io.skip(data, pos))
  }

  /** One map entry; a key that is no small integer ends the loop. */
  function EntryAt(io: Primitives, data: bytes, acc: Fields, pos: nat): Option<(Fields, nat)>
  {
    if pos >= |data| || data[pos] >= 0x80 then None else Some(FieldAt(io, data, pos + 1, data[pos], acc))
  }

  function EntryStep(io: Primitives, data: bytes): (Fields, nat) -> Option<(Fields, nat)>
  {
    (acc, p) => EntryAt(io, data, acc, p)
  }

  /** The loop over map entries. */
  function EntriesAt(io: Primitives, data: bytes, pos: nat, n: nat, acc: Fields): (Fields, nat)
  {
    Repeat(EntryStep(io, data), acc, pos, n)
  }

  /** The number of entries that the header of a map announces. */
  function MapLenAt(data: bytes, pos: nat): (Option<nat>, nat)
  {
    if pos >= |data| then (None, pos)
    else if 0x80 <= data[pos] <= 0x8f then (Some(data[pos] - 0x80), pos + 1)
    else if data[pos] == 0xde then U16At(data, pos + 1)
    else (None, pos + 1)
  }

  const NO_FIELDS := Fields(None, [])

  /** `mp_read_lxmf_fields` */
  function FieldsAt(io: Primitives, data: bytes, pos: nat): (Fields, nat)
  {
    var (n, p) := MapLenAt(data, pos);
    if n.None? then (NO_FIELDS, p) else EntriesAt(io, data, p, n.value, NO_FIELDS)
  }

  /** `decode_lxmf_payload`: everything behind the two fixed type bytes is tolerant. */
  function DecodePayload(io: Primitives, data: bytes): Option<Decoded>
  {
    if |data| < 97 then None
    else
      var mp := data[96..];
      if mp[0] != 0x94 || |mp| < 2 || mp[1] != 0xcb then None
      else
        var (title, p) := io.blob(mp, 10);
        var (body, q) := io.blob(mp, p);
        var fields := FieldsAt(io, mp, q).0;
        Some(Decoded(if title.Some? then title.value else [], if body.Some? then body.value else [],
                     fields.image, fields.files))
  }

  method ReadPair(utf8: bytes -> bool, c: Cursor, fallback: bytes) returns (r: Option<Media>)
    modifies c
    ensures (r, c.pos) == PairAt(Actual(utf8), c.data, old(c.pos), fallback)
  {
    var name := c.ReadBytes();
    var body := c.ReadBytes();
    if name.None? || body.None? {
      return None;
    }
    return Some(Media(Text(Actual(utf8), name.value, fallback), body.value));
  }

  method ReadFiles(utf8: bytes -> bool, c: Cursor, before: seq<Media>) returns (files: seq<Media>)
    modifies c
    ensures var (n, p) := ArrayLenAt(c.data, old(c.pos));
            (files, c.pos) == FilesAt(Actual(utf8), c.data, p, if n.Some? then n.value else 0, before)
  {
    var len := c.ReadArrayLen();
    files := ReadFileList(utf8, c, if len.Some? then len.value else 0, before);
  }

  method ReadFileList(utf8: bytes -> bool, c: Cursor, n: nat, before: seq<Media>) returns (files: seq<Media>)
    modifies c
    ensures (files, c.pos) == FilesAt(Actual(utf8), c.data, old(c.pos), n, before)
  {
    files := before;
    ghost var step := FileStep(Actual(utf8), c.data);
    for i := 0 to n
      invariant Repeat(step, before, old(c.pos), n) == Repeat(step, files, c.pos, n - i)
    {
      ghost var now := c.pos;
      assert step(files, now) == Some(FileAt(Actual(utf8), c.data, files, now));
      files := ReadFile(utf8, c, files);
    }
  }

  method ReadFile(utf8: bytes -> bool, c: Cursor, before: seq<Media>) returns (files: seq<Media>)
    modifies c
    ensures (files, c.pos) == FileAt(Actual(utf8), c.data, before, old(c.pos))
  {
    files := before;
    if c.pos < |c.data| && c.data[c.pos] == 0x92 {
      c.SkipOver(1);
      var m := ReadPair(utf8, c, FILE);
      if m.Some? {
        files := files + [m.value];
      }
    } else {
      c.Skip(0);
    }
  }

  method ReadField(utf8: bytes -> bool, c: Cursor, key: byte, acc: Fields) returns (next: Fields)
    modifies c
    ensures (next, c.pos) == FieldAt(Actual(utf8), c.data, old(c.pos), key, acc)
  {
    next := acc;
    match key {
      case 0x06 =>
        if c.pos < |c.data| && c.data[c.pos] == 0x92 {
          c.SkipOver(1);
          var m := ReadPair(utf8, c, IMAGE_JPEG);
          if m.Some? {
            next := acc.(image := m);
          }
        } else {
          c.Skip(0);
        }
      case 0x05 =>
        var files := ReadFiles(utf8, c, acc.files);
        next := acc.(files := files);
      case _ =>
        c.Skip(0);
    }
  }

  method ReadMapLen(c: Cursor) returns (r: Option<nat>)
    modifies c
    ensures (r, c.pos) == MapLenAt(c.data, old(c.pos))
  {
    if c.pos >= |c.data| {
      return None;
    }
    var b := c.data[c.pos];
    c.pos := c.pos + 1;
    if b / 16 == 8 {
      return Some(b % 16);
    }
    if b == 0xde {
      r := c.U16();
      return;
    }
    return None;
  }

  method ReadFields(utf8: bytes -> bool, c: Cursor) returns (acc: Fields)
    modifies c
    ensures (acc, c.pos) == FieldsAt(Actual(utf8), c.data, old(c.pos))
  {
    var mapLen := ReadMapLen(c);
    if mapLen.None? {
      return NO_FIELDS;
    }
    acc := ReadEntries(utf8, c, mapLen.value);
  }

  method ReadEntries(utf8: bytes -> bool, c: Cursor, n: nat) returns (acc: Fields)
    modifies c
    ensures (acc, c.pos) == EntriesAt(Actual(utf8), c.data, old(c.pos), n, NO_FIELDS)
  {
    acc := NO_FIELDS;
    ghost var step := EntryStep(Actual(utf8), c.data);
    for i := 0 to n
      invariant Repeat(step, NO_FIELDS, old(c.pos), n) == Repeat(step, acc, c.pos, n - i)
    {
      ghost var now := c.pos;
      assert step(acc, now) == EntryAt(Actual(utf8), c.data, acc, now);
      if c.pos >= |c.data| || c.data[c.pos] >= 0x80 {
        break;
      }
      var key := c.data[c.pos];
      c.pos := c.pos + 1;
      acc := ReadField(utf8, c, key, acc);
    }
  }

  method DecodeLxmf(utf8: bytes -> bool, data: bytes) returns (r: Option<Decoded>)
    ensures r == DecodePayload(Actual(utf8), data)
  {
    if |data| < 97 {
      return None;
    }
    var mp := data[96..];
    if mp[0] != 0x94 {
      return None;
    }
    if |mp| < 2 || mp[1] != 0xcb {
      return None;
    }
    var c := new Cursor(mp, 10);
    var title := c.ReadBytes();
    var body := c.ReadBytes();
    var fields := ReadFields(utf8, c);
    return Some(Decoded(if title.Some? then title.value else [], if body.Some? then body.value else [],
                        fields.image, fields.files));
  }

  // ----- decoding what has been encoded -----------------------------------------------------------------

  ghost predicate ReadsBlobs(io: Primitives)
  {
    forall data, pos: nat, d ::
      |d| <= MAX_BLOB && At(data, pos, Bin(d)) ==> io.blob(data, pos) == (Some(d), pos + |Bin(d)|)
  }

  ghost predicate ReadsStrings(io: Primitives)
  {
    forall data, pos: nat, s ::
      |s| <= 65535 && At(data, pos, Str(s)) ==> io.blob(data, pos) == (Some(s), pos + |Str(s)|)
  }

  ghost predicate ReadsArrayHeaders(io: Primitives)
  {
    forall data, pos: nat, n: nat ::
      n <= 65535 && At(data, pos, ArrayHeader(n)) ==> io.arrayLen(data, pos) == (Some(n), pos + |ArrayHeader(n)|)
  }

  ghost predicate SkipsValues(io: Primitives)
  {
    forall data, pos: nat, v ::
      Supported(v) && Depth(v) <= 16 && At(data, pos, Encoded(v)) ==> io.skip(data, pos) == pos + |Encoded(v)|
  }

  ghost predicate Faithful(io: Primitives)
  {
    ReadsBlobs(io) && ReadsStrings(io) && ReadsArrayHeaders(io) && SkipsValues(io)
  }

  lemma ActualReads(utf8: bytes -> bool)
    ensures var io := Actual(utf8); ReadsBlobs(io) && ReadsStrings(io) && ReadsArrayHeaders(io)
  {
    var io := Actual(utf8);
    forall data, pos: nat, d | |d| <= MAX_BLOB && At(data, pos, Bin(d))
      ensures io.blob(data, pos) == (Some(d), pos + |Bin(d)|)
    {
      BinRoundTripIff(data, pos, d);
    }
    forall data, pos: nat, s | |s| <= 65535 && At(data, pos, Str(s))
      ensures io.blob(data, pos) == (Some(s), pos + |Str(s)|)
    {
      StrRoundTripIff(data, pos, s);
    }
    forall data, pos: nat, n: nat | n <= 65535 && At(data, pos, ArrayHeader(n))
      ensures io.arrayLen(data, pos) == (Some(n), pos + |ArrayHeader(n)|)
    {
      ArrayHeaderRoundTripIff(data, pos, n);
    }
  }

  /** The decoder's own primitives read and skip everything within the limits. */
  lemma ActualIsFaithful(utf8: bytes -> bool)
    ensures Faithful(Actual(utf8))
  {
    var io := Actual(utf8);
    ActualReads(utf8);
    forall data, pos: nat, v | Supported(v) && Depth(v) <= 16 && At(data, pos, Encoded(v))
      ensures io.skip(data, pos) == pos + |Encoded(v)|
    {
      ValueSkippedIff(data, pos, v, 0);
    }
  }

  /** Within the lengths that the headers can say and the decoder accepts. */
  predicate MediaFits(m: Media)
  {
    |m.name| <= 65535 && |m.data| <= MAX_BLOB
  }

  predicate FieldFits(f: Field)
  {
    match f
    case Image(m) => MediaFits(m)
    case Files(ms) => |ms| <= 65535 && forall i :: 0 <= i < |ms| ==> MediaFits(ms[i])
    case Other(key, v) =>
      key != []
      && (Stops(f) || (|key| == 1 && key[0] !in {FIELD_IMAGE, FIELD_FILE_ATTACHMENTS} && Supported(v) && Depth(v) <= 16))
  }

  ghost predicate AllFit(fs: seq<Field>)
  {
    forall i :: 0 <= i < |fs| ==> FieldFits(fs[i])
  }

  lemma AllFitAppend(a: seq<Field>, b: seq<Field>)
    ensures AllFit(a + b) <==> AllFit(a) && AllFit(b)
  {
    assert forall i :: 0 <= i < |a| ==> (a + b)[i] == a[i];
    assert forall i :: 0 <= i < |b| ==> (a + b)[|a| + i] == b[i];
  }

  /** A key that is no small integer, at which the loop over the map breaks off. */
  predicate Stops(f: Field)
  {
    f.Other? && f.key != [] && f.key[0] >= 0x80
  }

  /** The fields in front of the first such key. */
  function Seen(fs: seq<Field>): (seen: seq<Field>)
    ensures |seen| <= |fs| && seen == fs[..|seen|]
  {
    if fs == [] || Stops(fs[0]) then [] else [fs[0]] + Seen(fs[1..])
  }

  lemma {:induction false} SeenEnds(fs: seq<Field>)
    ensures var k := |Seen(fs)|; (k < |fs| ==> Stops(fs[k])) && forall i :: 0 <= i < k ==> !Stops(fs[i])
    decreases |fs|
  {
    if fs != [] && !Stops(fs[0]) {
      SeenEnds(fs[1..]);
    }
  }

  /** Behind `a` without such a key the loop goes on; behind one it does not. */
  lemma {:induction false} SeenAppend(a: seq<Field>, b: seq<Field>)
    ensures Seen(a + b) == if |Seen(a)| < |a| then Seen(a) else a + Seen(b)
    decreases |a|
  {
    if a == [] {
      assert a + b == b && a + Seen(b) == Seen(b);
    } else {
      assert (a + b)[0] == a[0] && (a + b)[1..] == a[1..] + b;
      if !Stops(a[0]) {
        SeenAppend(a[1..], b);
        assert [a[0]] + (a[1..] + Seen(b)) == a + Seen(b);
      }
    }
  }

  function Shown(io: Primitives, m: Media, fallback: bytes): Media
  {
    m.(name := Text(io, m.name, fallback))
  }

  function Attach(io: Primitives, files: seq<Media>, m: Media): seq<Media>
  {
    files + [Shown(io, m, FILE)]
  }

  /** All attachments of a list, in order. */
  function AttachAll(io: Primitives, files: seq<Media>, ms: seq<Media>): seq<Media>
  {
    Fold(Attacher(io), files, ms)
  }

  function Attacher(io: Primitives): (seq<Media>, Media) -> seq<Media>
  {
    (files, m) => Attach(io, files, m)
  }

  /** Reading a blob consumes it and leaves the cursor at what follows. */
  lemma BlobRead(io: Primitives, data: bytes, pos: nat, d: bytes, rest: bytes) returns (p: nat)
    requires ReadsBlobs(io) && |d| <= MAX_BLOB && At(data, pos, Bin(d) + rest)
    ensures p == pos + |Bin(d)| && io.blob(data, pos) == (Some(d), p) && At(data, p, rest)
  {
    AtSplit(data, pos, Bin(d), rest);
    p := pos + |Bin(d)|;
  }

  lemma StringRead(io: Primitives, data: bytes, pos: nat, s: bytes, rest: bytes) returns (p: nat)
    requires ReadsStrings(io) && |s| <= 65535 && At(data, pos, Str(s) + rest)
    ensures p == pos + |Str(s)| && io.blob(data, pos) == (Some(s), p) && At(data, p, rest)
  {
    AtSplit(data, pos, Str(s), rest);
    p := pos + |Str(s)|;
  }

  lemma PairStart(data: bytes, pos: nat, a: bytes, b: bytes)
    requires At(data, pos, [0x92] + a + b)
    ensures pos < |data| && data[pos] == 0x92 && At(data, pos + 1, a + (b + []))
  {
    AtByte(data, pos, [0x92] + a + b, 0);
    assert [0x92] + a + b == [0x92] + (a + (b + []));
    AtSplit(data, pos, [0x92], a + (b + []));
  }

  lemma PairAtIs(io: Primitives, data: bytes, pos: nat, fallback: bytes, m: Media, p: nat, q: nat)
    requires io.blob(data, pos) == (Some(m.name), p) && io.blob(data, p) == (Some(m.data), q)
    ensures PairAt(io, data, pos, fallback) == (Some(Shown(io, m, fallback)), q)
  {
  }

  lemma PairLength(m: Media)
    ensures |Pair(m)| == 1 + |Str(m.name)| + |Bin(m.data)|
  {
  }

  lemma PairSteps(io: Primitives, data: bytes, pos: nat, m: Media) returns (p: nat, q: nat)
    requires Faithful(io) && MediaFits(m) && At(data, pos, Pair(m))
    ensures pos < |data| && data[pos] == 0x92 && q == pos + |Pair(m)|
    ensures io.blob(data, pos + 1) == (Some(m.name), p) && io.blob(data, p) == (Some(m.data), q)
  {
    PairStart(data, pos, Str(m.name), Bin(m.data));
    p := StringRead(io, data, pos + 1, m.name, Bin(m.data) + []);
    q := BlobRead(io, data, p, m.data, []);
    PairLength(m);
  }

  lemma PairRead(io: Primitives, data: bytes, pos: nat, m: Media, fallback: bytes)
    requires Faithful(io)
    requires MediaFits(m) && At(data, pos, Pair(m))
    ensures pos < |data| && data[pos] == 0x92
    ensures PairAt(io, data, pos + 1, fallback) == (Some(Shown(io, m, fallback)), pos + |Pair(m)|)
  {
    var p, q := PairSteps(io, data, pos, m);
    PairAtIs(io, data, pos + 1, fallback, m, p, q);
  }

  lemma FileReads(io: Primitives, data: bytes, m: Media)
    requires Faithful(io)
    requires MediaFits(m)
    ensures Reads(FileStep(io, data), Attacher(io), Pair, data, m)
  {
    forall files, p: nat | At(data, p, Pair(m))
      ensures FileStep(io, data)(files, p) == Some((Attacher(io)(files, m), p + |Pair(m)|))
    {
      PairRead(io, data, p, m, FILE);
    }
  }

  lemma FilesRead(io: Primitives, data: bytes, pos: nat, ms: seq<Media>, before: seq<Media>)
    requires Faithful(io)
    requires At(data, pos, Pairs(ms)) && forall i :: 0 <= i < |ms| ==> MediaFits(ms[i])
    ensures FilesAt(io, data, pos, |ms|, before) == (AttachAll(io, before, ms), pos + |Pairs(ms)|)
  {
    forall i | 0 <= i < |ms|
      ensures Reads(FileStep(io, data), Attacher(io), Pair, data, ms[i])
    {
      FileReads(io, data, ms[i]);
    }
    RepeatReads(FileStep(io, data), Attacher(io), Pair, data, pos, ms, before);
  }

  /** What a field adds to what the receiver has decoded so far: the last image wins, files add up, the rest is ignored. */
  function Adds(io: Primitives, acc: Fields, f: Field): Fields
  {
    match f
    case Image(m) => acc.(image := Some(Shown(io, m, IMAGE_JPEG)))
    case Files(ms) => acc.(files := AttachAll(io, acc.files, ms))
    case Other(_, _) => acc
  }

  function AddsAll(io: Primitives, acc: Fields, fs: seq<Field>): Fields
  {
    Fold(Adder(io), acc, fs)
  }

  function Adder(io: Primitives): (Fields, Field) -> Fields
  {
    (acc, f) => Adds(io, acc, f)
  }

  lemma FilesFieldRead(io: Primitives, data: bytes, pos: nat, ms: seq<Media>, acc: Fields)
    requires Faithful(io)
    requires FieldFits(Files(ms)) && At(data, pos, ArrayHeader(|ms|) + Pairs(ms))
    ensures FieldAt(io, data, pos, FIELD_FILE_ATTACHMENTS, acc)
            == (Adds(io, acc, Files(ms)), pos + |ArrayHeader(|ms|)| + |Pairs(ms)|)
  {
    AtSplit(data, pos, ArrayHeader(|ms|), Pairs(ms));
    FilesRead(io, data, pos + |ArrayHeader(|ms|)|, ms, acc.files);
  }

  lemma ImageFieldRead(io: Primitives, data: bytes, pos: nat, m: Media, acc: Fields)
    requires Faithful(io)
    requires MediaFits(m) && At(data, pos, Pair(m))
    ensures FieldAt(io, data, pos, FIELD_IMAGE, acc) == (Adds(io, acc, Image(m)), pos + |Pair(m)|)
  {
    PairRead(io, data, pos, m, IMAGE_JPEG);
  }

  lemma OtherFieldRead(io: Primitives, data: bytes, pos: nat, key: byte, v: Value, acc: Fields)
    requires Faithful(io) && key < 0x80
    requires FieldFits(Other([key], v)) && At(data, pos, Encoded(v))
    ensures FieldAt(io, data, pos, key, acc) == (acc, pos + |Encoded(v)|)
  {
  }

  lemma FieldRead(io: Primitives, data: bytes, pos: nat, f: Field, acc: Fields)
    requires Faithful(io) && !Stops(f)
    requires FieldFits(f) && At(data, pos, FieldBytes(f))
    ensures EntryAt(io, data, acc, pos) == Some((Adds(io, acc, f), pos + |FieldBytes(f)|))
  {
    match f {
      case Image(m) =>
        KeyRead(io, data, pos, FIELD_IMAGE, Pair(m), acc);
        ImageFieldRead(io, data, pos + 1, m, acc);
      case Files(ms) =>
        KeyRead(io, data, pos, FIELD_FILE_ATTACHMENTS, ArrayHeader(|ms|) + Pairs(ms), acc);
        FilesFieldRead(io, data, pos + 1, ms, acc);
      case Other(key, v) =>
        assert key == [key[0]];
        KeyRead(io, data, pos, key[0], Encoded(v), acc);
        OtherFieldRead(io, data, pos + 1, key[0], v, acc);
    }
  }

  lemma KeyRead(io: Primitives, data: bytes, pos: nat, key: byte, rest: bytes, acc: Fields)
    requires key < 0x80 && At(data, pos, [key] + rest)
    ensures EntryAt(io, data, acc, pos) == Some(FieldAt(io, data, pos + 1, key, acc)) && At(data, pos + 1, rest)
  {
    AtByte(data, pos, [key] + rest, 0);
    AtSplit(data, pos, [key], rest);
  }

  lemma FieldReads(io: Primitives, data: bytes, f: Field)
    requires Faithful(io)
    requires FieldFits(f) && !Stops(f)
    ensures Reads(EntryStep(io, data), Adder(io), FieldBytes, data, f)
  {
    forall acc, p: nat | At(data, p, FieldBytes(f))
      ensures EntryStep(io, data)(acc, p) == Some((Adder(io)(acc, f), p + |FieldBytes(f)|))
    {
      FieldRead(io, data, p, f, acc);
    }
  }

  lemma AllFieldsRead(io: Primitives, data: bytes, fs: seq<Field>)
    requires Faithful(io) && forall i :: 0 <= i < |fs| ==> FieldFits(fs[i]) && !Stops(fs[i])
    ensures ReadsAll(EntryStep(io, data), Adder(io), FieldBytes, data, fs)
  {
    forall i | 0 <= i < |fs|
      ensures Reads(EntryStep(io, data), Adder(io), FieldBytes, data, fs[i])
    {
      FieldReads(io, data, fs[i]);
    }
  }

  /** No entry is read where a key of that sort stands. */
  lemma StopRead(io: Primitives, data: bytes, pos: nat, f: Field, rest: bytes)
    requires Stops(f) && At(data, pos, FieldBytes(f) + rest)
    ensures forall acc :: EntryStep(io, data)(acc, pos) == None
  {
    AtByte(data, pos, FieldBytes(f) + rest, 0);
  }

  /** Reading any list of fields, known and unknown in any order, up to the first key that is no small integer. */
  lemma EntriesRead(io: Primitives, data: bytes, pos: nat, fs: seq<Field>, acc: Fields)
    requires Faithful(io) && AllFit(fs) && At(data, pos, FieldsBytes(fs))
    ensures EntriesAt(io, data, pos, |fs|, acc).0 == AddsAll(io, acc, Seen(fs))
  {
    var seen, rest := Seen(fs), fs[|Seen(fs)|..];
    SeenEnds(fs);
    assert fs == seen + rest;
    FieldsSplit(data, pos, seen, rest);
    if rest == [] {
      EntriesAllRead(io, data, pos, seen, acc);
    } else {
      EntriesStop(io, data, pos, seen, rest, |fs|, acc);
    }
  }

  lemma FieldsSplit(data: bytes, pos: nat, a: seq<Field>, b: seq<Field>)
    requires At(data, pos, FieldsBytes(a + b))
    ensures At(data, pos, FieldsBytes(a)) && At(data, pos + |FieldsBytes(a)|, FieldsBytes(b))
  {
    ConcatMapAppend(FieldBytes, a, b);
    AtSplit(data, pos, FieldsBytes(a), FieldsBytes(b));
  }

  lemma EntriesAllRead(io: Primitives, data: bytes, pos: nat, seen: seq<Field>, acc: Fields)
    requires Faithful(io) && (forall i :: 0 <= i < |seen| ==> FieldFits(seen[i]) && !Stops(seen[i]))
    requires At(data, pos, FieldsBytes(seen))
    ensures EntriesAt(io, data, pos, |seen|, acc).0 == AddsAll(io, acc, seen)
  {
    AllFieldsRead(io, data, seen);
    RepeatReads(EntryStep(io, data), Adder(io), FieldBytes, data, pos, seen, acc);
  }

  lemma EntriesStop(io: Primitives, data: bytes, pos: nat, seen: seq<Field>, rest: seq<Field>, n: nat, acc: Fields)
    requires Faithful(io) && forall i :: 0 <= i < |seen| ==> FieldFits(seen[i]) && !Stops(seen[i])
    requires rest != [] && Stops(rest[0]) && |seen| <= n
    requires At(data, pos, FieldsBytes(seen)) && At(data, pos + |FieldsBytes(seen)|, FieldsBytes(rest))
    ensures EntriesAt(io, data, pos, n, acc).0 == AddsAll(io, acc, seen)
  {
    var end := pos + |FieldsBytes(seen)|;
    AllFieldsRead(io, data, seen);
    StopRead(io, data, end, rest[0], FieldsBytes(rest[1..]));
    RepeatStops(EntryStep(io, data), Adder(io), FieldBytes, data, pos, seen, n, acc, end);
  }

  /** The header of a map of fields, short or long. */
  function MapHeader(n: nat): bytes
  {
    if n <= 15 then [0x80 + n] else [0xde, n / 256 % 256, n % 256]
  }

  lemma MapHeaderRead(data: bytes, pos: nat, n: nat)
    requires n <= 65535 && At(data, pos, MapHeader(n))
    ensures MapLenAt(data, pos) == (Some(n), pos + |MapHeader(n)|)
  {
    AtByte(data, pos, MapHeader(n), 0);
    if n > 15 {
      AtByte(data, pos, MapHeader(n), 1);
      AtByte(data, pos, MapHeader(n), 2);
    }
  }

  /** The fixed start of an encoded payload. */
  lemma PayloadStart(timestamp: bytes, a: bytes, b: bytes, tail: bytes, rest: bytes, mp: bytes)
    requires |timestamp| == 8 && mp == [0x94, 0xcb] + timestamp + a + b + tail + rest
    ensures |mp| >= 10 && mp[0] == 0x94 && mp[1] == 0xcb && At(mp, 10, a + (b + (tail + rest)))
  {
    var front := [0x94, 0xcb] + timestamp;
    assert mp == front + (a + (b + (tail + rest)));
    assert mp[10..] == a + (b + (tail + rest));
    AtIsSlice(mp, 10, a + (b + (tail + rest)));
  }

  /** The payload of a sender that writes any fields, behind 96 header bytes and before any trailing bytes, decodes to its
      title, its body and what its fields in front of the first key that is no small integer add up to. Behind a small
      integer of an unknown kind stands a value that skipping consumes whole. */
  lemma PayloadDecodes(io: Primitives, head: bytes, timestamp: bytes, title: bytes, body: bytes,
                       fs: seq<Field>, tail: bytes, rest: bytes)
    requires Faithful(io)
    requires |head| == 96 && |timestamp| == 8 && |title| <= MAX_BLOB && |body| <= MAX_BLOB
    requires |fs| <= 65535 && AllFit(fs)
    requires tail == MapHeader(|fs|) + FieldsBytes(fs)
    ensures var fields := AddsAll(io, NO_FIELDS, Seen(fs));
            DecodePayload(io, head + (EncodePayload(timestamp, title, body, tail) + rest))
            == Some(Decoded(title, body, fields.image, fields.files))
  {
    var mp := EncodePayload(timestamp, title, body, tail) + rest;
    assert (head + mp)[96..] == mp;
    PayloadStart(timestamp, Bin(title), Bin(body), tail, rest, mp);
    var p := BlobRead(io, mp, 10, title, Bin(body) + (tail + rest));
    var q := BlobRead(io, mp, p, body, tail + rest);
    FieldsRead(io, mp, q, fs, tail, rest);
    DecodesTo(io, head + mp, mp, title, p, body, q, AddsAll(io, NO_FIELDS, Seen(fs)));
  }

  lemma DecodesTo(io: Primitives, data: bytes, mp: bytes, title: bytes, p: nat, body: bytes, q: nat, fields: Fields)
    requires |data| >= 97 && mp == data[96..] && |mp| >= 2 && mp[0] == 0x94 && mp[1] == 0xcb
    requires io.blob(mp, 10) == (Some(title), p) && io.blob(mp, p) == (Some(body), q)
    requires FieldsAt(io, mp, q).0 == fields
    ensures DecodePayload(io, data) == Some(Decoded(title, body, fields.image, fields.files))
  {
  }

  lemma FieldsRead(io: Primitives, data: bytes, pos: nat, fs: seq<Field>, tail: bytes, rest: bytes)
    requires Faithful(io)
    requires |fs| <= 65535 && AllFit(fs)
    requires tail == MapHeader(|fs|) + FieldsBytes(fs) && At(data, pos, tail + rest)
    ensures FieldsAt(io, data, pos).0 == AddsAll(io, NO_FIELDS, Seen(fs))
  {
    AtSplit(data, pos, tail, rest);
    var p := pos + |MapHeader(|fs|)|;
    AtSplit(data, pos, MapHeader(|fs|), FieldsBytes(fs));
    MapHeaderRead(data, pos, |fs|);
    EntriesRead(io, data, p, fs, NO_FIELDS);
    FieldsAtStep(io, data, pos, |fs|, p);
  }

  lemma FieldsAtStep(io: Primitives, data: bytes, pos: nat, n: nat, p: nat)
    requires MapLenAt(data, pos) == (Some(n), p)
    ensures FieldsAt(io, data, pos) == EntriesAt(io, data, p, n, NO_FIELDS)
  {
  }

  // ----- fields of an unknown kind ----------------------------------------------------------------------

  /** The last image among fields. */
  function LastImage(fs: seq<Field>): Option<Media>
  {
    if fs == [] then None
    else if fs[|fs| - 1].Image? then Some(fs[|fs| - 1].image)
    else LastImage(fs[..|fs| - 1])
  }

  /** All attachments among fields. */
  function AllFiles(fs: seq<Field>): seq<Media>
  {
    if fs == [] then []
    else AllFiles(fs[..|fs| - 1]) + if fs[|fs| - 1].Files? then fs[|fs| - 1].files else []
  }

  /** What fields add up to: the last image, if there is one, and all attachments. */
  lemma {:induction false} AddsUpTo(io: Primitives, acc: Fields, fs: seq<Field>)
    ensures AddsAll(io, acc, fs)
            == Fields(if LastImage(fs).Some? then Some(Shown(io, LastImage(fs).value, IMAGE_JPEG)) else acc.image,
                      AttachAll(io, acc.files, AllFiles(fs)))
    decreases |fs|
  {
    if fs != [] {
      var init, last := fs[..|fs| - 1], fs[|fs| - 1];
      AddsUpTo(io, acc, init);
      assert fs == init + [last];
      FoldAppend(Adder(io), acc, init, [last]);
      FoldOne(Adder(io), AddsAll(io, acc, init), [last]);
      if last.Files? {
        FoldAppend(Attacher(io), acc.files, AllFiles(init), last.files);
      } else {
        assert AllFiles(init) + [] == AllFiles(init);
      }
    }
  }

  lemma {:induction false} AttachGrows(io: Primitives, files: seq<Media>, ms: seq<Media>)
    ensures |AttachAll(io, files, ms)| == |files| + |ms|
    decreases |ms|
  {
    if ms != [] {
      AttachGrows(io, Attach(io, files, ms[0]), ms[1..]);
    }
  }

  /** Fields add nothing exactly when they hold no attachment and no image other than the one already there. */
  lemma AddsNothingIff(io: Primitives, acc: Fields, fs: seq<Field>)
    ensures AddsAll(io, acc, fs) == acc <==>
            AllFiles(fs) == [] && (LastImage(fs).None? || Some(Shown(io, LastImage(fs).value, IMAGE_JPEG)) == acc.image)
  {
    AddsUpTo(io, acc, fs);
    AttachGrows(io, acc.files, AllFiles(fs));
  }

  /** One more field of an unknown kind makes a difference exactly when its key is the first that is no small integer, and
      fields behind it would have added something. */
  lemma UnknownFieldInvisible(io: Primitives, a: seq<Field>, f: Field, b: seq<Field>)
    requires f.Other?
    ensures var base := AddsAll(io, NO_FIELDS, a);
            AddsAll(io, NO_FIELDS, Seen(a + [f] + b)) == AddsAll(io, NO_FIELDS, Seen(a + b))
            <==> !Stops(f) || |Seen(a)| < |a| || AddsAll(io, base, Seen(b)) == base
  {
    var base := AddsAll(io, NO_FIELDS, a);
    SeenWith(a, f, b);
    SeenAppend(a, b);
    FoldAppend(Adder(io), NO_FIELDS, a, Seen(b));
    if !Stops(f) {
      FoldAppend(Adder(io), NO_FIELDS, a, [f] + Seen(b));
      FoldAppend(Adder(io), base, [f], Seen(b));
      FoldOne(Adder(io), base, [f]);
    }
  }

  lemma SeenWith(a: seq<Field>, f: Field, b: seq<Field>)
    ensures Seen(a + [f] + b) == if |Seen(a)| < |a| then Seen(a) else if Stops(f) then a else a + ([f] + Seen(b))
  {
    var one := [f];
    assert a + one + b == a + (one + b) && one[1..] == [];
    SeenAppend(a, one + b);
    SeenAppend(one, b);
    if Stops(f) {
      assert Seen(one) == [] && a + [] == a;
    } else {
      assert Seen(one) == one + Seen(one[1..]) == one;
    }
  }

  function FieldMap(fs: seq<Field>): bytes
  {
    MapHeader(|fs|) + FieldsBytes(fs)
  }

  /** Every image in a message is the one decoded so far, or there is none; there are no attachments. */
  predicate NothingNew(io: Primitives, a: seq<Field>, b: seq<Field>)
  {
    AllFiles(b) == []
    && (LastImage(b).None?
        || (LastImage(a).Some? && Shown(io, LastImage(b).value, IMAGE_JPEG) == Shown(io, LastImage(a).value, IMAGE_JPEG)))
  }

  /** When one more field of an unknown kind makes no difference, in terms of the fields alone. */
  lemma NoDifferenceIff(io: Primitives, a: seq<Field>, f: Field, b: seq<Field>)
    requires f.Other? && f.key != []
    ensures AddsAll(io, NO_FIELDS, Seen(a + [f] + b)) == AddsAll(io, NO_FIELDS, Seen(a + b))
            <==> (f.key[0] < 0x80 || (exists g :: g in a && Stops(g)) || NothingNew(io, a, Seen(b)))
  {
    UnknownFieldInvisible(io, a, f, b);
    SeenEnds(a);
    AddsUpTo(io, NO_FIELDS, a);
    AddsNothingIff(io, AddsAll(io, NO_FIELDS, a), Seen(b));
    assert |Seen(a)| < |a| <==> exists g :: g in a && Stops(g) by {
      if |Seen(a)| < |a| {
        assert a[|Seen(a)|] in a;
      }
    }
  }

  function Shows(title: bytes, body: bytes, fields: Fields): Decoded
  {
    Decoded(title, body, fields.image, fields.files)
  }

  /** A message with the given fields. */
  function MessageWith(head: bytes, timestamp: bytes, title: bytes, body: bytes, fs: seq<Field>): bytes
    requires |timestamp| == 8
  {
    head + EncodePayload(timestamp, title, body, FieldMap(fs))
  }

  lemma MessageDecodes(utf8: bytes -> bool, head: bytes, timestamp: bytes, title: bytes, body: bytes, fs: seq<Field>)
    requires |head| == 96 && |timestamp| == 8 && |title| <= MAX_BLOB && |body| <= MAX_BLOB
    requires |fs| <= 65535 && AllFit(fs)
    ensures DecodePayload(Actual(utf8), MessageWith(head, timestamp, title, body, fs))
            == Some(Shows(title, body, AddsAll(Actual(utf8), NO_FIELDS, Seen(fs))))
  {
    ActualIsFaithful(utf8);
    PayloadDecodes(Actual(utf8), head, timestamp, title, body, fs, FieldMap(fs), []);
    var mp := EncodePayload(timestamp, title, body, FieldMap(fs));
    assert mp + [] == mp;
  }

  /** A field of an unknown kind leaves the decoded message as it was without it, wherever it stands, if and only if its key is
      a small integer, or another sort of key has already ended the map, or the fields behind it hold nothing new. Behind a
      small integer its value must be one that skipping consumes whole; for the others see `ImageBehindValueIff`. Behind any
      other key it is whatever it is. */
  lemma UnknownFieldInvisibleIff(utf8: bytes -> bool, head: bytes, timestamp: bytes, title: bytes, body: bytes,
                                 a: seq<Field>, f: Field, b: seq<Field>)
    requires |head| == 96 && |timestamp| == 8 && |title| <= MAX_BLOB && |body| <= MAX_BLOB
    requires |a| + |b| < 65535 && f.Other? && FieldFits(f) && AllFit(a) && AllFit(b)
    ensures (DecodePayload(Actual(utf8), MessageWith(head, timestamp, title, body, a + [f] + b))
             == DecodePayload(Actual(utf8), MessageWith(head, timestamp, title, body, a + b)))
            <==> (f.key[0] < 0x80 || (exists g :: g in a && Stops(g)) || NothingNew(Actual(utf8), a, Seen(b)))
  {
    AllFitAround(a, f, b);
    SameDecodedIff(utf8, head, timestamp, title, body, a + [f] + b, a + b);
    NoDifferenceIff(Actual(utf8), a, f, b);
  }

  lemma AllFitAround(a: seq<Field>, f: Field, b: seq<Field>)
    requires AllFit(a) && FieldFits(f) && AllFit(b)
    ensures AllFit(a + [f] + b) && AllFit(a + b)
  {
    AllFitAppend(a, [f]);
    AllFitAppend(a + [f], b);
    AllFitAppend(a, b);
  }

  /** Messages with these fields decode to the same exactly when the fields add up to the same. */
  lemma SameDecodedIff(utf8: bytes -> bool, head: bytes, timestamp: bytes, title: bytes, body: bytes,
                       x: seq<Field>, y: seq<Field>)
    requires |head| == 96 && |timestamp| == 8 && |title| <= MAX_BLOB && |body| <= MAX_BLOB
    requires |x| <= 65535 && |y| <= 65535 && AllFit(x) && AllFit(y)
    ensures (DecodePayload(Actual(utf8), MessageWith(head, timestamp, title, body, x))
             == DecodePayload(Actual(utf8), MessageWith(head, timestamp, title, body, y)))
            <==> AddsAll(Actual(utf8), NO_FIELDS, Seen(x)) == AddsAll(Actual(utf8), NO_FIELDS, Seen(y))
  {
    MessageDecodes(utf8, head, timestamp, title, body, x);
    MessageDecodes(utf8, head, timestamp, title, body, y);
  }

  /** A custom field of LXMF, 0xfb, whose key takes two bytes, in front of an image: the image is lost. */
  lemma CustomFieldHidesImage(utf8: bytes -> bool, head: bytes, timestamp: bytes, title: bytes, body: bytes, m: Media)
    requires |head| == 96 && |timestamp| == 8 && |title| <= MAX_BLOB && |body| <= MAX_BLOB && MediaFits(m)
    ensures DecodePayload(Actual(utf8),
                          head + EncodePayload(timestamp, title, body, [0x82, 0xcc, 0xfb, 0xc0] + FieldBytes(Image(m))))
         == Some(Decoded(title, body, None, []))
  {
    var fs := [Other([0xcc, 0xfb], Scalar(0xc0, [])), Image(m)];
    CustomFieldMap(m);
    MessageDecodes(utf8, head, timestamp, title, body, fs);
    assert Seen(fs) == [];
  }

  lemma CustomFieldMap(m: Media)
    ensures FieldMap([Other([0xcc, 0xfb], Scalar(0xc0, [])), Image(m)]) == [0x82, 0xcc, 0xfb, 0xc0] + FieldBytes(Image(m))
  {
    var f, g := Other([0xcc, 0xfb], Scalar(0xc0, [])), Image(m);
    FieldsOfTwo(f, g);
    assert FieldBytes(f) == [0xcc, 0xfb, 0xc0];
  }

  lemma FieldsOfTwo(f: Field, g: Field)
    ensures FieldsBytes([f, g]) == FieldBytes(f) + FieldBytes(g)
  {
    ConcatMapSnoc(FieldBytes, [f], g);
    ConcatMapSnoc(FieldBytes, [], f);
    assert [f] + [g] == [f, g] && [] + [f] == [f];
    assert FieldsBytes([f]) == [] + FieldBytes(f) == FieldBytes(f);
  }

  // ----- values that are not skipped whole --------------------------------------------------------------

  /** The payload of a sender whose fields are one of an unknown kind, with a small integer for a key, and an image. */
  function TwoFields(timestamp: bytes, title: bytes, body: bytes, key: byte, enc: bytes, m: Media): bytes
    requires |timestamp| == 8
  {
    EncodePayload(timestamp, title, body, [0x82, key] + enc + FieldBytes(Image(m)))
  }

  /** Where in it the value of the first field stands. */
  function ValueStart(title: bytes, body: bytes): nat
  {
    12 + |Bin(title)| + |Bin(body)|
  }

  lemma TailAt(data: bytes, pos: nat, h: bytes, enc: bytes, tail: bytes)
    requires |h| == 2 && At(data, pos, h + enc + tail)
    ensures pos + 2 <= |data| && data[pos] == h[0] && data[pos + 1] == h[1]
    ensures At(data, pos + 2, enc) && At(data, pos + 2 + |enc|, tail)
  {
    AtSplit(data, pos, h + enc, tail);
    AtSplit(data, pos, h, enc);
    AtByte(data, pos, h, 0);
    AtByte(data, pos, h, 1);
  }

  lemma FrontAt(timestamp: bytes, a: bytes, b: bytes, tail: bytes, mp: bytes)
    requires |timestamp| == 8 && mp == [0x94, 0xcb] + timestamp + a + b + tail
    ensures |mp| >= 10 && mp[0] == 0x94 && mp[1] == 0xcb
    ensures At(mp, 10, a) && At(mp, 10 + |a|, b) && At(mp, 10 + |a| + |b|, tail)
  {
    assert mp + [] == mp && tail + [] == tail;
    PayloadStart(timestamp, a, b, tail, [], mp);
    AtSplit(mp, 10, a, b + tail);
    AtSplit(mp, 10 + |a|, b, tail);
  }

  lemma TwoFieldsAt(timestamp: bytes, title: bytes, body: bytes, key: byte, enc: bytes, m: Media)
    requires |timestamp| == 8
    ensures var mp, p := TwoFields(timestamp, title, body, key, enc, m), ValueStart(title, body);
            && p <= |mp| && mp[0] == 0x94 && mp[1] == 0xcb && mp[p - 2] == 0x82 && mp[p - 1] == key
            && At(mp, 10, Bin(title)) && At(mp, 10 + |Bin(title)|, Bin(body))
            && At(mp, p, enc) && At(mp, p + |enc|, FieldBytes(Image(m)))
  {
    var mp, tail := TwoFields(timestamp, title, body, key, enc, m), FieldBytes(Image(m));
    FrontAt(timestamp, Bin(title), Bin(body), [0x82, key] + enc + tail, mp);
    TailAt(mp, ValueStart(title, body) - 2, [0x82, key], enc, tail);
  }

  /** No known field starts at a byte that is neither of the keys 5 and 6. */
  lemma NothingThere(io: Primitives, data: bytes, pos: nat, enc: bytes, q: nat)
    requires At(data, pos, enc) && pos <= q < pos + |enc| && enc[q - pos] !in {FIELD_IMAGE, FIELD_FILE_ATTACHMENTS}
    ensures EntriesAt(io, data, q, 1, NO_FIELDS).0 == NO_FIELDS
  {
    AtByte(data, pos, enc, q - pos);
    OneEntry(io, data, q, NO_FIELDS);
  }

  /** Skipping stops at the end of the value that stands at `p`, or inside it at a byte that is neither of those keys. */
  predicate StopsHarmlessly(mp: bytes, p: nat, enc: bytes)
  {
    var q := SkipAt(mp, p, 0);
    p <= q <= p + |enc| && (q < p + |enc| ==> enc[q - p] !in {FIELD_IMAGE, FIELD_FILE_ATTACHMENTS})
  }

  lemma OneEntry(io: Primitives, data: bytes, pos: nat, acc: Fields)
    ensures EntriesAt(io, data, pos, 1, acc).0
            == match EntryAt(io, data, acc, pos) case None => acc case Some((next, _)) => next
  {
  }

  /** The two entries are read one after the other, the second where skipping the value has led. */
  lemma TwoEntries(io: Primitives, data: bytes, pos: nat, key: byte)
    requires key < 0x80 && key !in {FIELD_IMAGE, FIELD_FILE_ATTACHMENTS}
    requires pos + 2 <= |data| && data[pos] == 0x82 && data[pos + 1] == key
    ensures FieldsAt(io, data, pos).0 == EntriesAt(io, data, io.skip(data, pos + 2), 1, NO_FIELDS).0
  {
    FieldsAtStep(io, data, pos, 2, pos + 1);
    assert EntryStep(io, data)(NO_FIELDS, pos + 1) == Some((NO_FIELDS, io.skip(data, pos + 2)));
  }

  lemma ImageEntry(io: Primitives, data: bytes, pos: nat, m: Media)
    requires Faithful(io) && MediaFits(m) && At(data, pos, FieldBytes(Image(m)))
    ensures EntriesAt(io, data, pos, 1, NO_FIELDS).0 == Fields(Some(Shown(io, m, IMAGE_JPEG)), [])
  {
    FieldRead(io, data, pos, Image(m), NO_FIELDS);
    OneEntry(io, data, pos, NO_FIELDS);
  }

  lemma SecondEntry(utf8: bytes -> bool, mp: bytes, p: nat, key: byte, enc: bytes, m: Media)
    requires MediaFits(m) && key < 0x80 && key !in {FIELD_IMAGE, FIELD_FILE_ATTACHMENTS}
    requires 2 <= p <= |mp| && mp[p - 2] == 0x82 && mp[p - 1] == key
    requires At(mp, p, enc) && At(mp, p + |enc|, FieldBytes(Image(m))) && StopsHarmlessly(mp, p, enc)
    ensures var io, whole := Actual(utf8), SkipAt(mp, p, 0) == p + |enc|;
            FieldsAt(io, mp, p - 2).0 == Fields(if whole then Some(Shown(io, m, IMAGE_JPEG)) else None, [])
  {
    var io, q := Actual(utf8), SkipAt(mp, p, 0);
    TwoEntries(io, mp, p - 2, key);
    if q == p + |enc| {
      ActualIsFaithful(utf8);
      ImageEntry(io, mp, q, m);
    } else {
      NothingThere(io, mp, p, enc, q);
    }
  }

  lemma MessageShows(io: Primitives, head: bytes, mp: bytes, title: bytes, p: nat, body: bytes, q: nat, fields: Fields)
    requires |head| == 96 && |mp| >= 2 && mp[0] == 0x94 && mp[1] == 0xcb && |title| <= MAX_BLOB && |body| <= MAX_BLOB
    requires At(mp, 10, Bin(title)) && p == 10 + |Bin(title)| && At(mp, p, Bin(body)) && q == p + |Bin(body)|
    requires io.blob == BytesAt && FieldsAt(io, mp, q).0 == fields
    ensures DecodePayload(io, head + mp) == Some(Decoded(title, body, fields.image, fields.files))
  {
    BinRoundTripIff(mp, 10, title);
    BinRoundTripIff(mp, p, body);
    assert (head + mp)[96..] == mp;
    DecodesTo(io, head + mp, mp, title, p, body, q, fields);
  }

  lemma TwoFieldsShow(utf8: bytes -> bool, head: bytes, mp: bytes, title: bytes, body: bytes, key: byte, enc: bytes, m: Media,
                      p: nat)
    requires |head| == 96 && |title| <= MAX_BLOB && |body| <= MAX_BLOB && MediaFits(m)
    requires key < 0x80 && key !in {FIELD_IMAGE, FIELD_FILE_ATTACHMENTS}
    requires p == ValueStart(title, body) && p <= |mp|
    requires mp[0] == 0x94 && mp[1] == 0xcb && mp[p - 2] == 0x82 && mp[p - 1] == key
    requires At(mp, 10, Bin(title)) && At(mp, 10 + |Bin(title)|, Bin(body))
    requires At(mp, p, enc) && At(mp, p + |enc|, FieldBytes(Image(m))) && StopsHarmlessly(mp, p, enc)
    ensures var whole := SkipAt(mp, p, 0) == p + |enc|;
            DecodePayload(Actual(utf8), head + mp)
            == Some(Decoded(title, body, if whole then Some(Shown(Actual(utf8), m, IMAGE_JPEG)) else None, []))
  {
    SecondEntry(utf8, mp, p, key, enc, m);
    MessageShows(Actual(utf8), head, mp, title, 10 + |Bin(title)|, body, p - 2, FieldsAt(Actual(utf8), mp, p - 2).0);
  }

  /** An image behind a field of an unknown kind comes through exactly when skipping consumes that field's value whole. If it
      stops inside, the rest of the value is taken for the second field, and the image is lost. */
  lemma ImageBehindValueIff(utf8: bytes -> bool, head: bytes, timestamp: bytes, title: bytes, body: bytes, key: byte,
                            enc: bytes, m: Media, mp: bytes, p: nat)
    requires |head| == 96 && |timestamp| == 8 && |title| <= MAX_BLOB && |body| <= MAX_BLOB && MediaFits(m)
    requires key < 0x80 && key !in {FIELD_IMAGE, FIELD_FILE_ATTACHMENTS}
    requires mp == TwoFields(timestamp, title, body, key, enc, m) && p == ValueStart(title, body)
    requires StopsHarmlessly(mp, p, enc)
    ensures var whole := SkipAt(mp, p, 0) == p + |enc|;
            DecodePayload(Actual(utf8), head + mp)
            == Some(Decoded(title, body, if whole then Some(Shown(Actual(utf8), m, IMAGE_JPEG)) else None, []))
  {
    TwoFieldsAt(timestamp, title, body, key, enc, m);
    TwoFieldsShow(utf8, head, mp, title, body, key, enc, m, p);
  }

  /** So it is with the values of every kind that skipping supports: nested up to sixteen levels deep they do no harm ... */
  lemma ImageBehindNestedIff(utf8: bytes -> bool, head: bytes, timestamp: bytes, title: bytes, body: bytes, key: byte,
                             v: Value, m: Media)
    requires |head| == 96 && |timestamp| == 8 && |title| <= MAX_BLOB && |body| <= MAX_BLOB && MediaFits(m)
    requires key < 0x80 && key !in {FIELD_IMAGE, FIELD_FILE_ATTACHMENTS}
    requires Supported(v) && FIELD_IMAGE !in Encoded(v) && FIELD_FILE_ATTACHMENTS !in Encoded(v)
    ensures var kept := Depth(v) <= 16;
            DecodePayload(Actual(utf8), head + TwoFields(timestamp, title, body, key, Encoded(v), m))
            == Some(Decoded(title, body, if kept then Some(Shown(Actual(utf8), m, IMAGE_JPEG)) else None, []))
  {
    var mp, p := TwoFields(timestamp, title, body, key, Encoded(v), m), ValueStart(title, body);
    TwoFieldsAt(timestamp, title, body, key, Encoded(v), m);
    ValueSkippedIff(mp, p, v, 0);
    SkipGoesOn(mp, p, 0);
    ImageBehindValueIff(utf8, head, timestamp, title, body, key, Encoded(v), m, mp, p);
  }

  /** ... with arrays that have the two-byte header: they do no harm if all their elements take one byte each ... */
  lemma ImageBehindLongArrayIff(utf8: bytes -> bool, head: bytes, timestamp: bytes, title: bytes, body: bytes, key: byte,
                                items: seq<Value>, enc: bytes, m: Media)
    requires |head| == 96 && |timestamp| == 8 && |title| <= MAX_BLOB && |body| <= MAX_BLOB && MediaFits(m)
    requires key < 0x80 && key !in {FIELD_IMAGE, FIELD_FILE_ATTACHMENTS}
    requires |items| <= 65535 && AllSupported(items) && enc == [0xdc] + Be16(|items|) + EncodedAll(items)
    requires 3 + |items| < |enc| ==> enc[3 + |items|] !in {FIELD_IMAGE, FIELD_FILE_ATTACHMENTS}
    ensures var kept := forall i :: 0 <= i < |items| ==> |Encoded(items[i])| == 1;
            DecodePayload(Actual(utf8), head + TwoFields(timestamp, title, body, key, enc, m))
            == Some(Decoded(title, body, if kept then Some(Shown(Actual(utf8), m, IMAGE_JPEG)) else None, []))
  {
    var mp, p := TwoFields(timestamp, title, body, key, enc, m), ValueStart(title, body);
    TwoFieldsAt(timestamp, title, body, key, enc, m);
    LongArraySkippedIff(mp, p, items, 0);
    ImageBehindValueIff(utf8, head, timestamp, title, body, key, enc, m, mp, p);
  }

  /** ... and with kinds it does not know, which always do. */
  lemma ImageBehindUnknownKind(utf8: bytes -> bool, head: bytes, timestamp: bytes, title: bytes, body: bytes, key: byte,
                               code: byte, rest: bytes, m: Media)
    requires |head| == 96 && |timestamp| == 8 && |title| <= MAX_BLOB && |body| <= MAX_BLOB && MediaFits(m)
    requires key < 0x80 && key !in {FIELD_IMAGE, FIELD_FILE_ATTACHMENTS}
    requires Unknown(code) && rest != [] && rest[0] !in {FIELD_IMAGE, FIELD_FILE_ATTACHMENTS}
    ensures DecodePayload(Actual(utf8), head + TwoFields(timestamp, title, body, key, [code] + rest, m))
            == Some(Decoded(title, body, None, []))
  {
    var mp, p := TwoFields(timestamp, title, body, key, [code] + rest, m), ValueStart(title, body);
    TwoFieldsAt(timestamp, title, body, key, [code] + rest, m);
    UnknownSkipped(mp, p, code, rest, 0);
    ImageBehindValueIff(utf8, head, timestamp, title, body, key, [code] + rest, m, mp, p);
  }

  /** A list of one number, written with the two-byte header, under the key 1: the image behind it is lost. */
  lemma LongArrayHidesImage(utf8: bytes -> bool, head: bytes, timestamp: bytes, title: bytes, body: bytes, m: Media)
    requires |head| == 96 && |timestamp| == 8 && |title| <= MAX_BLOB && |body| <= MAX_BLOB && MediaFits(m)
    ensures DecodePayload(Actual(utf8),
                          head + EncodePayload(timestamp, title, body,
                                               [0x82, 0x01, 0xdc, 0x00, 0x01, 0xcc, 0x00] + FieldBytes(Image(m))))
         == Some(Decoded(title, body, None, []))
  {
    var number := Scalar(0xcc, [0]);
    assert EncodedAll([number]) == [] + Encoded(number) == [0xcc, 0] by {
      EncodedLast([number]);
    }
    assert [0xdc] + Be16(1) + [0xcc, 0] == [0xdc, 0, 1, 0xcc, 0];
    assert [0x82, 0x01] + [0xdc, 0, 1, 0xcc, 0] == [0x82, 0x01, 0xdc, 0x00, 0x01, 0xcc, 0x00];
    ImageBehindLongArrayIff(utf8, head, timestamp, title, body, 1, [number], [0xdc, 0, 1, 0xcc, 0], m);
    assert |Encoded([number][0])| == 2;
  }

  lemma {:induction false} AttachedAsIs(io: Primitives, files: seq<Media>, ms: seq<Media>)
    requires forall i :: 0 <= i < |ms| ==> io.utf8(ms[i].name)
    ensures AttachAll(io, files, ms) == files + ms
    decreases |ms|
  {
    if ms == [] {
      assert files + ms == files;
    } else {
      AttachedAsIs(io, files + [ms[0]], ms[1..]);
      assert files + [ms[0]] + ms[1..] == files + ms;
    }
  }

  /** The encoder and the decoder of this node: title, body, image and files come back as they were, for all lengths within
      the limits and across all header forms; an image without data is not sent. */
  lemma LxmfRoundTrip(utf8: bytes -> bool, head: bytes, timestamp: bytes, title: bytes, body: bytes,
                      image: Option<Media>, files: seq<Media>, fieldsMp: bytes)
    requires |head| == 96 && |timestamp| == 8 && |title| <= MAX_BLOB && |body| <= MAX_BLOB
    requires image.Some? ==> MediaFits(image.value) && utf8(image.value.name)
    requires |files| <= 65535 && forall i :: 0 <= i < |files| ==> MediaFits(files[i]) && utf8(files[i].name)
    requires fieldsMp == [0x80 + |OwnFields(image, files)|] + FieldsBytes(OwnFields(image, files))
    ensures DecodePayload(Actual(utf8), head + EncodePayload(timestamp, title, body, fieldsMp))
         == Some(Decoded(title, body, if image.Some? && image.value.data == [] then None else image, files))
  {
    var io, fs := Actual(utf8), OwnFields(image, files);
    ActualIsFaithful(utf8);
    PayloadDecodes(io, head, timestamp, title, body, fs, fieldsMp, []);
    var mp := EncodePayload(timestamp, title, body, fieldsMp);
    assert mp + [] == mp;
    SeenEnds(fs);
    assert Seen(fs) == fs;
    OwnFieldsAdd(io, image, files);
  }

  lemma OwnFieldsAdd(io: Primitives, image: Option<Media>, files: seq<Media>)
    requires image.Some? ==> io.utf8(image.value.name)
    requires forall i :: 0 <= i < |files| ==> io.utf8(files[i].name)
    ensures AddsAll(io, NO_FIELDS, OwnFields(image, files))
            == Fields(if image.Some? && image.value.data == [] then None else image, files)
  {
    var add := Adder(io);
    var img := if image.Some? && image.value.data != [] then [Image(image.value)] else [];
    var fls := if files != [] then [Files(files)] else [];
    AttachedAsIs(io, [], files);
    assert [] + files == files;
    FoldAppend(add, NO_FIELDS, img, fls);
    FoldOne(add, NO_FIELDS, img);
    FoldOne(add, Fold(add, NO_FIELDS, img), fls);
  }
}
