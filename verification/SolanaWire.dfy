/** Solana legacy transactions on the wire (solana_tx.rs, beacon_server.rs): compact counts, messages, signature slots. */
module SolanaWire {
  import opened Bytes

  type Key = b: bytes | |b| == 32 witness seq(32, _ => 0)

  // ----- compact counts ---------------------------------------------------------------------------------

  /** A u16 in groups of seven bits, low group first, the top bit set on all but the last. */
  function Compact(n: u16): (b: bytes)
    ensures 1 <= |b|
  {
    if n < 128 then [n] else [n % 128 + 128] + Compact(n / 128)
  }

  /** `encode_compact_u16` */
  method EncodeCompact(n: u16) returns (out: bytes)
    ensures out == Compact(n)
  {
    out := [];
    var v := n;
    while true
      invariant out + Compact(v) == Compact(n)
      decreases v
    {
      var low := v % 128;
      ghost var before := v;
      v := v / 128;
      if v == 0 {
        return out + [low];
      }
      assert (out + [low + 128]) + Compact(v) == out + ([low + 128] + Compact(v));
      out := out + [low + 128];
    }
  }

  /** What byte `i` of a count contributes, `(b & 0x7f) << shift` in sixteen bits: the third has room for two bits only. */
  function Group(b: byte, i: nat): (n: u16)
    requires i < 3
  {
    var low: nat := if b < 128 then b else b - 128;
    if i == 0 then low else if i == 1 then low * 128 else low % 4 * 16384
  }

  /** The loop from byte `i` on. */
  function ReadGroups(data: bytes, i: nat, acc: nat): (r: Option<(nat, nat)>)
    requires i <= 3
    ensures r.Some? ==> i < r.value.1 <= 3 && r.value.1 <= |data|
    decreases 3 - i
  {
    if i == 3 || i >= |data| then None
    else
      var sum := acc + Group(data[i], i);
      if data[i] < 128 then Some((sum, i + 1)) else ReadGroups(data, i + 1, sum)
  }

  /** `read_compact_u16` and `parse_tx_compact_u16`: value and bytes consumed, of which there are at most three. */
  function ReadCompact(data: bytes): Option<(nat, nat)>
  {
    ReadGroups(data, 0, 0)
  }

  method ReadCompactU16(data: bytes) returns (r: Option<(nat, nat)>)
    ensures r == ReadCompact(data)
  {
    var result: u16 := 0;
    for i := 0 to Min(|data|, 3)
      invariant ReadGroups(data, 0, 0) == ReadGroups(data, i, result)
      invariant result < (if i == 0 then 1 else if i == 1 then 128 else if i == 2 then 16384 else 65536)
    {
      result := result + Group(data[i], i);
      if data[i] < 128 {
        return Some((result, i + 1));
      }
    }
    return None;
  }

  /** Counts come back, with the cursor behind them. */
  lemma CompactRoundTrip(n: u16, rest: bytes)
    ensures ReadCompact(Compact(n) + rest) == Some((n as nat, |Compact(n)|))
    ensures (Compact(n) + rest)[|Compact(n)|..] == rest
  {
    var data := Compact(n) + rest;
    if n < 128 {
      assert data[0] == n;
    } else {
      var m := n / 128;
      assert data[0] == n % 128 + 128;
      if m < 128 {
        assert Compact(n) == [n % 128 + 128] + [m];
        assert data[1] == m;
        assert ReadGroups(data, 1, n % 128) == Some((n as nat, 2));
      } else {
        assert Compact(m / 128) == [m / 128];
        assert Compact(m) == [m % 128 + 128] + Compact(m / 128);
        assert Compact(n) == [n % 128 + 128] + ([m % 128 + 128] + [m / 128]);
        assert data[1] == m % 128 + 128 && data[2] == m / 128;
        assert ReadGroups(data, 2, n % 128 + m % 128 * 128) == Some((n as nat, 3));
        assert ReadGroups(data, 1, n % 128) == Some((n as nat, 3));
      }
    }
  }

  // ----- messages ---------------------------------------------------------------------------------------

  datatype Instruction = Instruction(programIdIndex: byte, accountIndices: bytes, data: bytes)

  datatype Header = Header(required: byte, readonlySigned: byte, readonlyUnsigned: byte)

  datatype Message = Message(header: Header, keys: seq<Key>, blockhash: Key, instructions: seq<Instruction>)

  /** `len as u16` */
  function Count(n: nat): u16 { if n < 0x1_0000 then n else n % 0x1_0000 }

  function KeyBytes(keys: seq<Key>): (b: bytes)
    ensures |b| == |keys| * 32
  {
    if keys == [] then [] else keys[0] + KeyBytes(keys[1..])
  }

  function InstructionBytes(ix: Instruction): bytes
  {
    [ix.programIdIndex]
    + (Compact(Count(|ix.accountIndices|)) + (ix.accountIndices + (Compact(Count(|ix.data|)) + ix.data)))
  }

  function InstructionsBytes(ixs: seq<Instruction>): bytes
  {
    ConcatMap(InstructionBytes, ixs)
  }

  function MessageBytes(m: Message): bytes
  {
    [m.header.required, m.header.readonlySigned, m.header.readonlyUnsigned]
    + (Compact(Count(|m.keys|)) + (KeyBytes(m.keys) + (m.blockhash + (Compact(Count(|m.instructions|))
                                                                     + InstructionsBytes(m.instructions)))))
  }

  lemma {:induction false} KeyBytesSnoc(keys: seq<Key>, k: Key)
    ensures KeyBytes(keys + [k]) == KeyBytes(keys) + k
    decreases |keys|
  {
    if keys == [] {
      var one := [k];
      assert one[1..] == [];
      assert keys + one == one && KeyBytes(one) == k + KeyBytes(one[1..]);
    } else {
      KeyBytesSnoc(keys[1..], k);
      assert (keys + [k])[1..] == keys[1..] + [k];
    }
  }

  /** `SolanaMessage::serialize` */
  method SerializeMessage(m: Message) returns (out: bytes)
    ensures out == MessageBytes(m)
  {
    var keyCount := EncodeCompact(Count(|m.keys|));
    out := [m.header.required, m.header.readonlySigned, m.header.readonlyUnsigned] + keyCount;
    var keys := AppendKeys(m.keys);
    var ixCount := EncodeCompact(Count(|m.instructions|));
    var ixs := AppendInstructions(m.instructions);
    var end := ixCount + ixs;
    assert out + keys + m.blockhash + ixCount + ixs == out + (keys + (m.blockhash + end));
    out := out + keys + m.blockhash + ixCount + ixs;
  }

  method AppendKeys(keys: seq<Key>) returns (out: bytes)
    ensures out == KeyBytes(keys)
  {
    out := [];
    for i := 0 to |keys|
      invariant out == KeyBytes(keys[..i])
    {
      KeyBytesSnoc(keys[..i], keys[i]);
      assert keys[..i + 1] == keys[..i] + [keys[i]];
      out := out + keys[i];
    }
    assert keys[..|keys|] == keys;
  }

  method AppendInstructions(ixs: seq<Instruction>) returns (out: bytes)
    ensures out == InstructionsBytes(ixs)
  {
    out := [];
    for i := 0 to |ixs|
      invariant out == InstructionsBytes(ixs[..i])
    {
      ConcatMapSnoc(InstructionBytes, ixs[..i], ixs[i]);
      assert ixs[..i + 1] == ixs[..i] + [ixs[i]];
      var one := AppendInstruction(ixs[i]);
      out := out + one;
    }
    assert ixs[..|ixs|] == ixs;
  }

  method AppendInstruction(ix: Instruction) returns (out: bytes)
    ensures out == InstructionBytes(ix)
  {
    var indexCount := EncodeCompact(Count(|ix.accountIndices|));
    var dataCount := EncodeCompact(Count(|ix.data|));
    out := [ix.programIdIndex] + indexCount + ix.accountIndices + dataCount + ix.data;
    assert out == [ix.programIdIndex] + (indexCount + (ix.accountIndices + (dataCount + ix.data)));
  }

  // ----- reading a message ------------------------------------------------------------------------------

  /** How far the gate has read, and what it remembers: the size of the key table, then the keys. */
  datatype Stage = AtHeader | AtKeyCount | AtKeys(size: nat) | AtInstructionCount(keys: bytes) | AtInstruction(keys: bytes)
                 | AtIndexCount | AtIndices(count: nat) | AtData

  function Ahead(stage: Stage): nat
  {
    match stage
    case AtHeader => 7
    case AtKeyCount => 6
    case AtKeys(_) => 5
    case AtInstructionCount(_) => 4
    case AtInstruction(_) => 3
    case AtIndexCount => 2
    case AtIndices(_) => 1
    case AtData => 0
  }

  /** What `verify_execute_payment_instruction` decides when `b` is still to be read; `tag` is the method's discriminator. */
  function Gate(stage: Stage, b: bytes, program: Key, tag: bytes): bool
    decreases Ahead(stage)
  {
    match stage
    case AtHeader => |b| >= 3 && Gate(AtKeyCount, b[3..], program, tag)
    case AtKeyCount =>
      (match ReadCompact(b)
       case None => false
       case Some((count, n)) => Gate(AtKeys(count * 32), b[n..], program, tag))
    case AtKeys(size) => |b| >= size + 32 && Gate(AtInstructionCount(b[..size]), b[size + 32..], program, tag)
    case AtInstructionCount(keys) =>
      (match ReadCompact(b)
       case None => false
       case Some((count, n)) => count != 0 && Gate(AtInstruction(keys), b[n..], program, tag))
    case AtInstruction(keys) =>
      b != []
      && var at := b[0] as int * 32;
         at + 32 <= |keys| && keys[at..at + 32] == program && Gate(AtIndexCount, b[1..], program, tag)
    case AtIndexCount =>
      (match ReadCompact(b)
       case None => false
       case Some((count, n)) => Gate(AtIndices(count), b[n..], program, tag))
    case AtIndices(count) => count <= |b| && Gate(AtData, b[count..], program, tag)
    case AtData =>
      match ReadCompact(b)
      case None => false
      case Some((len, n)) => len >= 8 && |b| - n >= 8 && b[n..][..8] == tag
  }

  lemma DropDrop(b: bytes, i: nat, j: nat)
    requires i + j <= |b|
    ensures b[i..][j..] == b[i + j..]
  {
  }

  /** `verify_execute_payment_instruction`. That it verifies says it never reads out of range, whatever the bytes. */
  method VerifyExecutePayment(message: bytes, program: Key, tag: bytes) returns (ok: bool)
    ensures ok == Gate(AtHeader, message, program, tag)
  {
    if |message| < 3 {
      return false;
    }
    var cur := 3;
    var count := ReadCompactU16(message[cur..]);
    if count.None? {
      return false;
    }
    DropDrop(message, cur, count.value.1);
    cur := cur + count.value.1;
    ok := VerifyFromKeys(message, cur, count.value.0 * 32, program, tag);
  }

  /** From the account keys on. */
  method VerifyFromKeys(message: bytes, start: nat, accountBytes: nat, program: Key, tag: bytes) returns (ok: bool)
    requires start <= |message|
    ensures ok == Gate(AtKeys(accountBytes), message[start..], program, tag)
  {
    var cur := start;
    if cur + accountBytes + 32 > |message| {
      return false;
    }
    var accountKeys := message[cur..cur + accountBytes];
    assert accountKeys == message[start..][..accountBytes];
    assert message[start..][accountBytes + 32..] == message[start + accountBytes + 32..];
    cur := cur + accountBytes + 32;
    var ixCount := ReadCompactU16(message[cur..]);
    if ixCount.None? {
      return false;
    }
    if ixCount.value.0 == 0 {
      return false;
    }
    DropDrop(message, cur, ixCount.value.1);
    cur := cur + ixCount.value.1;
    ok := VerifyInstruction(message, cur, accountKeys, program, tag);
  }

  /** The first instruction. */
  method VerifyInstruction(message: bytes, start: nat, accountKeys: bytes, program: Key, tag: bytes) returns (ok: bool)
    requires start <= |message|
    ensures ok == Gate(AtInstruction(accountKeys), message[start..], program, tag)
  {
    var cur := start;
    if cur >= |message| {
      return false;
    }
    var pidIdx := message[cur] as int;
    assert message[start..][0] as int == pidIdx && message[start..][1..] == message[start + 1..];
    cur := cur + 1;
    var keyStart := pidIdx * 32;
    if keyStart + 32 > |accountKeys| {
      return false;
    }
    if accountKeys[keyStart..keyStart + 32] != program {
      return false;
    }
    ok := VerifyIndexCount(message, cur, program, tag);
  }

  method VerifyIndexCount(message: bytes, start: nat, program: Key, tag: bytes) returns (ok: bool)
    requires start <= |message|
    ensures ok == Gate(AtIndexCount, message[start..], program, tag)
  {
    var cur := start;
    var accounts := ReadCompactU16(message[cur..]);
    if accounts.None? {
      return false;
    }
    DropDrop(message, cur, accounts.value.1);
    cur := cur + accounts.value.1;
    ok := VerifyIndices(message, cur, accounts.value.0, program, tag);
  }

  method VerifyIndices(message: bytes, start: nat, count: nat, program: Key, tag: bytes) returns (ok: bool)
    requires start <= |message|
    ensures ok == Gate(AtIndices(count), message[start..], program, tag)
  {
    var cur := start;
    if cur + count > |message| {
      return false;
    }
    DropDrop(message, cur, count);
    cur := cur + count;
    ok := VerifyData(message, cur, program, tag);
  }

  method VerifyData(message: bytes, start: nat, program: Key, tag: bytes) returns (ok: bool)
    requires start <= |message|
    ensures ok == Gate(AtData, message[start..], program, tag)
  {
    var cur := start;
    var len := ReadCompactU16(message[cur..]);
    if len.None? {
      return false;
    }
    DropDrop(message, cur, len.value.1);
    cur := cur + len.value.1;
    if len.value.0 < 8 || cur + 8 > |message| {
      return false;
    }
    assert message[cur..][..8] == message[cur..cur + 8];
    return message[cur..cur + 8] == tag;
  }

  /** `extract_account_key` */
  function ExtractKey(message: bytes, index: nat): Option<Key>
  {
    if |message| < 3 then None
    else
      match ReadCompact(message[3..])
      case None => None
      case Some((count, n)) =>
        if index >= count || 3 + n + index * 32 + 32 > |message| then None
        else Some(message[3 + n + index * 32..3 + n + index * 32 + 32])
  }

  // ----- the gate is exact ------------------------------------------------------------------------------

  /** All counts of the message fit their sixteen bits. */
  predicate Countable(m: Message)
  {
    |m.keys| < 0x1_0000 && |m.instructions| < 0x1_0000
    && forall i :: 0 <= i < |m.instructions| ==>
         |m.instructions[i].accountIndices| < 0x1_0000 && |m.instructions[i].data| < 0x1_0000
  }

  lemma Behind(a: bytes, b: bytes)
    ensures (a + b)[|a|..] == b && (a + b)[..|a|] == a
  {
  }

  lemma {:induction false} KeyAt(keys: seq<Key>, i: nat, rest: bytes)
    requires i < |keys|
    ensures (KeyBytes(keys) + rest)[i * 32..i * 32 + 32] == keys[i]
    decreases i
  {
    if i == 0 {
      assert (KeyBytes(keys) + rest)[..32] == keys[0];
    } else {
      var tail := KeyBytes(keys[1..]);
      KeyAt(keys[1..], i - 1, rest);
      assert (KeyBytes(keys) + rest)[32..] == tail + rest;
      assert (KeyBytes(keys) + rest)[i * 32..i * 32 + 32] == (KeyBytes(keys) + rest)[32..][(i - 1) * 32..(i - 1) * 32 + 32];
    }
  }

  /** What the gate is for: the first instruction calls this program with this method. */
  predicate Calls(m: Message, program: Key, tag: bytes)
  {
    m.instructions != []
    && var ix := m.instructions[0];
       && ix.programIdIndex < |m.keys| && m.keys[ix.programIdIndex] == program
       && |ix.data| >= 8 && ix.data[..8] == tag
  }

  lemma DataGateIff(data: bytes, rest: bytes, program: Key, tag: bytes)
    requires |data| < 0x1_0000
    ensures Gate(AtData, Compact(|data|) + (data + rest), program, tag) <==> |data| >= 8 && data[..8] == tag
  {
    CompactRoundTrip(|data|, data + rest);
    if |data| >= 8 {
      assert (data + rest)[..8] == data[..8];
    }
  }

  lemma IndicesGateIff(indices: bytes, behind: bytes, program: Key, tag: bytes)
    requires |indices| < 0x1_0000
    ensures Gate(AtIndexCount, Compact(|indices|) + (indices + behind), program, tag) <==> Gate(AtData, behind, program, tag)
  {
    CompactRoundTrip(|indices|, indices + behind);
    Behind(indices, behind);
  }

  lemma ProgramGateIff(index: byte, b: bytes, keys: seq<Key>, program: Key, tag: bytes)
    ensures Gate(AtInstruction(KeyBytes(keys)), [index] + b, program, tag)
            <==> index < |keys| && keys[index] == program && Gate(AtIndexCount, b, program, tag)
  {
    assert ([index] + b)[1..] == b;
    if index < |keys| {
      KeyAt(keys, index, []);
      assert KeyBytes(keys) + [] == KeyBytes(keys);
    }
  }

  lemma InstructionLayout(ix: Instruction, rest: bytes)
    requires |ix.accountIndices| < 0x1_0000 && |ix.data| < 0x1_0000
    ensures InstructionBytes(ix) + rest
            == [ix.programIdIndex]
               + (Compact(|ix.accountIndices|) + (ix.accountIndices + (Compact(|ix.data|) + (ix.data + rest))))
  {
    var d := Compact(|ix.data|) + ix.data;
    var c := ix.accountIndices + d;
    Associate([ix.programIdIndex], Compact(|ix.accountIndices|) + c, rest);
    Associate(Compact(|ix.accountIndices|), c, rest);
    Associate(ix.accountIndices, d, rest);
    Associate(Compact(|ix.data|), ix.data, rest);
  }

  lemma InstructionGateIff(ix: Instruction, rest: bytes, keys: seq<Key>, program: Key, tag: bytes)
    requires |ix.accountIndices| < 0x1_0000 && |ix.data| < 0x1_0000
    ensures Gate(AtInstruction(KeyBytes(keys)), InstructionBytes(ix) + rest, program, tag)
            <==> ix.programIdIndex < |keys| && keys[ix.programIdIndex] == program && |ix.data| >= 8 && ix.data[..8] == tag
  {
    var d := Compact(|ix.data|) + (ix.data + rest);
    var b := Compact(|ix.accountIndices|) + (ix.accountIndices + d);
    DataGateIff(ix.data, rest, program, tag);
    IndicesGateIff(ix.accountIndices, d, program, tag);
    ProgramGateIff(ix.programIdIndex, b, keys, program, tag);
    InstructionLayout(ix, rest);
  }

  lemma InstructionCountGateIff(n: nat, ixs: bytes, keys: bytes, program: Key, tag: bytes)
    requires n < 0x1_0000
    ensures Gate(AtInstructionCount(keys), Compact(n) + ixs, program, tag)
            <==> n != 0 && Gate(AtInstruction(keys), ixs, program, tag)
  {
    CompactRoundTrip(n, ixs);
  }

  lemma KeysGateIff(keys: bytes, blockhash: Key, behind: bytes, program: Key, tag: bytes)
    ensures Gate(AtKeys(|keys|), keys + (blockhash + behind), program, tag)
            <==> Gate(AtInstructionCount(keys), behind, program, tag)
  {
    var b := keys + (blockhash + behind);
    Behind(keys, blockhash + behind);
    assert b == (keys + blockhash) + behind;
    Behind(keys + blockhash, behind);
  }

  lemma KeyCountGateIff(n: nat, c: bytes, program: Key, tag: bytes)
    requires n < 0x1_0000
    ensures Gate(AtKeyCount, Compact(n) + c, program, tag) <==> Gate(AtKeys(n * 32), c, program, tag)
  {
    CompactRoundTrip(n, c);
  }

  lemma HeaderGateIff(h: Header, b: bytes, program: Key, tag: bytes)
    ensures Gate(AtHeader, [h.required, h.readonlySigned, h.readonlyUnsigned] + b, program, tag)
            <==> Gate(AtKeyCount, b, program, tag)
  {
    Behind([h.required, h.readonlySigned, h.readonlyUnsigned], b);
  }

  /** Exact on every serialised message whose counts fit. */
  lemma GateIff(m: Message, program: Key, tag: bytes)
    requires Countable(m)
    ensures Gate(AtHeader, MessageBytes(m), program, tag) <==> Calls(m, program, tag)
  {
    var ixs, keys := InstructionsBytes(m.instructions), KeyBytes(m.keys);
    var d := Compact(|m.instructions|) + ixs;
    var c := keys + (m.blockhash + d);
    HeaderGateIff(m.header, Compact(|m.keys|) + c, program, tag);
    KeyCountGateIff(|m.keys|, c, program, tag);
    KeysGateIff(keys, m.blockhash, d, program, tag);
    InstructionCountGateIff(|m.instructions|, ixs, keys, program, tag);
    if m.instructions != [] {
      InstructionGateIff(m.instructions[0], InstructionsBytes(m.instructions[1..]), m.keys, program, tag);
    }
  }

  /** Where the keys are. */
  lemma KeysLayout(m: Message, n: nat, rest: bytes)
    requires Countable(m) && n == |Compact(|m.keys|)|
    requires rest == m.blockhash + (Compact(|m.instructions|) + InstructionsBytes(m.instructions))
    ensures MessageBytes(m)[3..] == Compact(|m.keys|) + (KeyBytes(m.keys) + rest)
    ensures MessageBytes(m)[3 + n..] == KeyBytes(m.keys) + rest
  {
    var c := KeyBytes(m.keys) + rest;
    var h := [m.header.required, m.header.readonlySigned, m.header.readonlyUnsigned];
    Behind(h, Compact(|m.keys|) + c);
    Behind(h + Compact(|m.keys|), c);
    Associate(h, Compact(|m.keys|), c);
  }

  lemma Shifted(b: bytes, at: nat, from: nat, n: nat)
    requires at + from + n <= |b|
    ensures b[at + from..at + from + n] == b[at..][from..from + n]
  {
  }

  /** Every account key is found at its index, and none beyond. */
  lemma ExtractKeyIff(m: Message, index: nat)
    requires Countable(m)
    ensures ExtractKey(MessageBytes(m), index) == if index < |m.keys| then Some(m.keys[index]) else None
  {
    var rest := m.blockhash + (Compact(|m.instructions|) + InstructionsBytes(m.instructions));
    var n := |Compact(|m.keys|)|;
    KeysLayout(m, n, rest);
    CompactRoundTrip(|m.keys|, KeyBytes(m.keys) + rest);
    if index < |m.keys| {
      KeyAt(m.keys, index, rest);
      Shifted(MessageBytes(m), 3 + n, index * 32, 32);
    }
  }
}
