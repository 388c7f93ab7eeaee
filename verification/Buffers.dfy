/** Fixed-size byte buffers (buffer.rs): bounds are checked, nothing is written past the end. */
module Buffers {
  import opened Bytes

  /** `StaticBuffer<N>`, with N the length of the array. */
  class StaticBuffer {
    const buffer: array<byte>
    var len: nat

    ghost predicate Valid()
      reads this
    {
      len <= buffer.Length
    }

    ghost function Contents(): bytes
      reads this, buffer
      requires Valid()
    {
      buffer[..len]
    }

    constructor (n: nat)
      ensures Valid() && Contents() == [] && buffer.Length == n && fresh(buffer)
    {
      buffer := new byte[n](_ => 0);
      len := 0;
    }

    /** `write`: all or nothing. */
    method Write(data: bytes) returns (r: Option<nat>)
      requires Valid()
      modifies this, buffer
      ensures Valid()
      ensures r == if data == [] || old(len) + |data| <= buffer.Length then Some(|data|) else None
      ensures Contents() == old(Contents()) + if r.Some? then data else []
    {
      if data == [] {
        return Some(0);
      }
      if len + |data| > buffer.Length {
        return None;
      }
      forall i | 0 <= i < |data| {
        buffer[len + i] := data[i];
      }
      len := len + |data|;
      return Some(|data|);
    }

    /** `safe_write`: as much as fits. */
    method SafeWrite(data: bytes) returns (n: nat)
      requires Valid()
      modifies this, buffer
      ensures Valid() && n == Min(|data|, buffer.Length - old(len))
      ensures Contents() == old(Contents()) + data[..n]
    {
      var maxSize := Min(|data|, buffer.Length - len);
      var r := Write(data[..maxSize]);
      return if r.Some? then r.value else 0;
    }

    /** `rotate_left`: the first `mid` bytes of the contents go, the rest moves to the front. */
    method RotateLeft(mid: nat) returns (r: Option<nat>)
      requires Valid()
      modifies this, buffer
      ensures Valid() && r == if mid <= old(len) then Some(old(len) - mid) else None
      ensures Contents() == if mid <= old(len) then old(Contents())[mid..] else old(Contents())
    {
      if mid > len {
        return None;
      }
      len := len - mid;
      forall i | 0 <= i < buffer.Length {
        buffer[i] := if i + mid < buffer.Length then buffer[i + mid] else buffer[i + mid - buffer.Length];
      }
      return Some(len);
    }
  }

  /** `OutputBuffer`: a caller's array, filled from the front. */
  class OutputBuffer {
    const buffer: array<byte>
    var offset: nat

    ghost predicate Valid()
      reads this
    {
      offset <= buffer.Length
    }

    ghost function Contents(): (c: bytes)
      reads this, buffer
      requires Valid()
    {
      buffer[..offset]
    }

    constructor (a: array<byte>)
      ensures Valid() && Contents() == [] && buffer == a
    {
      buffer, offset := a, 0;
    }

    method Write(data: bytes) returns (r: Option<nat>)
      requires Valid()
      modifies this, buffer
      ensures Valid()
      ensures r == if data == [] || old(offset) + |data| <= buffer.Length then Some(|data|) else None
      ensures Contents() == old(Contents()) + if r.Some? then data else []
    {
      if data == [] {
        return Some(0);
      }
      if offset + |data| > buffer.Length {
        return None;
      }
      forall i | 0 <= i < |data| {
        buffer[offset + i] := data[i];
      }
      offset := offset + |data|;
      return Some(|data|);
    }

    /** `as_slice` */
    method AsSlice() returns (s: bytes)
      requires Valid()
      ensures s == Contents()
    {
      return buffer[..offset];
    }
  }

  /** `InputBuffer`: a read-only slice and a cursor. */
  class InputBuffer {
    const buffer: bytes
    var offset: nat

    ghost predicate Valid()
      reads this
    {
      offset <= |buffer|
    }

    /** What has not been read yet. */
    ghost function Rest(): (r: bytes)
      reads this
      requires Valid()
    {
      buffer[offset..]
    }

    constructor (b: bytes)
      ensures Valid() && Rest() == b
    {
      buffer, offset := b, 0;
    }

    method Read(size: nat) returns (r: Option<bytes>)
      requires Valid()
      modifies this
      ensures Valid()
      ensures r == if size <= |old(Rest())| then Some(old(Rest())[..size]) else None
      ensures Rest() == old(Rest())[if r.Some? then size else 0..]
    {
      if offset + size > |buffer| {
        return None;
      }
      r := Some(buffer[offset..offset + size]);
      assert buffer[offset..][..size] == buffer[offset..offset + size];
      offset := offset + size;
    }

    method ReadByte() returns (r: Option<byte>)
      requires Valid()
      modifies this
      ensures Valid()
      ensures r == if old(Rest()) != [] then Some(old(Rest())[0]) else None
      ensures Rest() == old(Rest())[if r.Some? then 1 else 0..]
    {
      var one := Read(1);
      return if one.Some? then Some(one.value[0]) else None;
    }

    method BytesLeft() returns (n: nat)
      requires Valid()
      ensures n == |Rest()|
    {
      return |buffer| - offset;
    }
  }
}
