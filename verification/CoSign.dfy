/** The two-round co-sign protocol (solana_tx.rs, beacon_server.rs): building, signing slots in place, and the beacon's
    checks. Signatures are abstract. */
module CoSign {
  import opened Bytes
  import opened SolanaWire

  type Sig = b: bytes | |b| == 64 witness seq(64, _ => 0)
  type Tag = b: bytes | |b| == 8 witness seq(8, _ => 0)

  const NO_SIG: Sig := seq(64, _ => 0)

  /** Public key of a secret key, signing, verifying. */
  datatype Scheme = Scheme(pub: bytes -> Key, sign: (bytes, bytes) -> Sig, verify: (Key, bytes, Sig) -> bool)

  ghost predicate Sound(c: Scheme)
  {
    forall k, m :: c.verify(c.pub(k), m, c.sign(k, m))
  }

  // ----- signature slots --------------------------------------------------------------------------------

  /** A count of `n` slots takes the first `start` bytes, and all slots are there. */
  predicate Shape(tx: bytes, n: nat, start: nat)
  {
    ReadCompact(tx) == Some((n, start)) && start + n * 64 <= |tx|
  }

  function Slot(tx: bytes, start: nat, slot: nat): Sig
    requires start + slot * 64 + 64 <= |tx|
  {
    tx[start + slot * 64..start + slot * 64 + 64]
  }

  function Splice(tx: bytes, off: nat, sig: Sig): (r: bytes)
    requires off + 64 <= |tx|
    ensures |r| == |tx|
  {
    tx[..off] + sig + tx[off + 64..]
  }

  /** `sign_tx_at_slot`: malformed transactions and slots beyond the end are left alone. */
  function SignAt(c: Scheme, tx: bytes, key: bytes, slot: nat): bytes
  {
    match ReadCompact(tx)
    case None => tx
    case Some((n, start)) =>
      if start + n * 64 > |tx| || start + slot * 64 + 64 > |tx| then tx
      else Splice(tx, start + slot * 64, c.sign(key, tx[start + n * 64..]))
  }

  method SignTxAtSlot(c: Scheme, tx: bytes, key: bytes, slot: nat) returns (out: bytes)
    ensures out == SignAt(c, tx, key, slot)
  {
    var parsed := ReadCompactU16(tx);
    if parsed.None? {
      return tx;
    }
    var (n, cu16Len) := parsed.value;
    var msgStart := cu16Len + n * 64;
    if msgStart > |tx| {
      return tx;
    }
    var sig := c.sign(key, tx[msgStart..]);
    out := tx;
    var off := cu16Len + slot * 64;
    if off + 64 <= |out| {
      out := out[..off] + sig + out[off + 64..];
    }
  }

  /** `verify_slot_signature` */
  function VerifySlot(c: Scheme, tx: bytes, key: Key, slot: nat): bool
  {
    match ReadCompact(tx)
    case None => false
    case Some((n, start)) =>
      slot < n && start + n * 64 <= |tx| && c.verify(key, tx[start + n * 64..], Slot(tx, start, slot))
  }

  method VerifySlotSignature(c: Scheme, tx: bytes, key: Key, slot: nat) returns (ok: bool)
    ensures ok == VerifySlot(c, tx, key, slot)
  {
    var parsed := ReadCompactU16(tx);
    if parsed.None? {
      return false;
    }
    var (n, cu16Len) := parsed.value;
    if slot >= n {
      return false;
    }
    var sigOff := cu16Len + slot * 64;
    var msgStart := cu16Len + n * 64;
    if sigOff + 64 > |tx| || msgStart > |tx| {
      return false;
    }
    return c.verify(key, tx[msgStart..], tx[sigOff..sigOff + 64]);
  }

  /** A count only depends on the bytes it takes. */
  lemma {:induction false} GroupsPrefix(a: bytes, b: bytes, i: nat, acc: nat)
    requires i <= 3 && ReadGroups(a, i, acc).Some?
    requires var n := ReadGroups(a, i, acc).value.1; n <= |b| && forall j :: i <= j < n ==> a[j] == b[j]
    ensures ReadGroups(b, i, acc) == ReadGroups(a, i, acc)
    decreases 3 - i
  {
    if a[i] >= 128 {
      GroupsPrefix(a, b, i + 1, acc + Group(a[i], i));
    }
  }

  lemma SpliceParts(tx: bytes, off: nat, sig: Sig)
    requires off + 64 <= |tx|
    ensures forall i :: 0 <= i < |tx| ==> Splice(tx, off, sig)[i] == if off <= i < off + 64 then sig[i - off] else tx[i]
  {
  }

  lemma SpliceKeepsCount(tx: bytes, n: nat, start: nat, off: nat, sig: Sig)
    requires Shape(tx, n, start) && start <= off && off + 64 <= |tx|
    ensures Shape(Splice(tx, off, sig), n, start)
  {
    SpliceParts(tx, off, sig);
    GroupsBounds(tx, 0, 0);
    GroupsPrefix(tx, Splice(tx, off, sig), 0, 0);
  }

  lemma GroupsBounds(data: bytes, i: nat, acc: nat)
    requires i <= 3 && ReadGroups(data, i, acc).Some?
    ensures i < ReadGroups(data, i, acc).value.1 <= 3
  {
  }

  /** What signing an existing slot does: that slot changes, the message, the count and all other slots stay. */
  lemma SignInRange(c: Scheme, tx: bytes, n: nat, start: nat, key: bytes, slot: nat) returns (sig: Sig, out: bytes)
    requires Shape(tx, n, start) && slot < n
    ensures sig == c.sign(key, tx[start + n * 64..]) && out == SignAt(c, tx, key, slot)
    ensures Shape(out, n, start) && |out| == |tx| && out[start + n * 64..] == tx[start + n * 64..]
    ensures Slot(out, start, slot) == sig
    ensures forall j :: 0 <= j < n && j != slot ==> Slot(out, start, j) == Slot(tx, start, j)
  {
    var off := start + slot * 64;
    sig := c.sign(key, tx[start + n * 64..]);
    out := Splice(tx, off, sig);
    SpliceKeepsCount(tx, n, start, off, sig);
    SpliceParts(tx, off, sig);
    forall j | 0 <= j < n && j != slot
      ensures Slot(out, start, j) == Slot(tx, start, j)
    {
      assert j * 64 + 64 <= slot * 64 || slot * 64 + 64 <= j * 64;
    }
  }

  /** A signed slot verifies under the signer's key, and signing one slot does not disturb the verdict on another. */
  lemma SignThenVerify(c: Scheme, tx: bytes, n: nat, start: nat, key: bytes, slot: nat, other: Key, j: nat)
    requires Sound(c) && Shape(tx, n, start) && slot < n && j < n
    ensures VerifySlot(c, SignAt(c, tx, key, slot), c.pub(key), slot)
    ensures j != slot ==> VerifySlot(c, SignAt(c, tx, key, slot), other, j) == VerifySlot(c, tx, other, j)
  {
    var sig, out := SignInRange(c, tx, n, start, key, slot);
  }

  lemma SplicesCommute(tx: bytes, a: nat, b: nat, x: Sig, y: Sig)
    requires a + 64 <= |tx| && b + 64 <= |tx| && (a + 64 <= b || b + 64 <= a)
    ensures Splice(Splice(tx, a, x), b, y) == Splice(Splice(tx, b, y), a, x)
  {
    SpliceParts(tx, a, x);
    SpliceParts(tx, b, y);
    SpliceParts(Splice(tx, a, x), b, y);
    SpliceParts(Splice(tx, b, y), a, x);
  }

  /** Signers of different slots may sign in either order. */
  lemma SigningCommutes(c: Scheme, tx: bytes, n: nat, start: nat, k1: bytes, i: nat, k2: bytes, j: nat)
    requires Shape(tx, n, start) && i < n && j < n && i != j
    ensures SignAt(c, SignAt(c, tx, k1, i), k2, j) == SignAt(c, SignAt(c, tx, k2, j), k1, i)
  {
    var p, q := start + i * 64, start + j * 64;
    var x, a := SignInRange(c, tx, n, start, k1, i);
    var y, b := SignInRange(c, tx, n, start, k2, j);
    SignAtIs(c, tx, n, start, k1, i);
    SignAtIs(c, tx, n, start, k2, j);
    SignAtIs(c, a, n, start, k2, j);
    SignAtIs(c, b, n, start, k1, i);
    assert p + 64 <= q || q + 64 <= p;
    SplicesCommute(tx, p, q, x, y);
  }

  lemma SignAtIs(c: Scheme, tx: bytes, n: nat, start: nat, key: bytes, slot: nat)
    requires Shape(tx, n, start) && start + slot * 64 + 64 <= |tx|
    ensures SignAt(c, tx, key, slot) == Splice(tx, start + slot * 64, c.sign(key, tx[start + n * 64..]))
  {
  }

  lemma SpliceBehind(tx: bytes, m: nat, off: nat, sig: Sig)
    requires m <= off && off + 64 <= |tx|
    ensures Splice(tx, off, sig)[m..] == Splice(tx[m..], off - m, sig)
  {
  }

  lemma SpliceSameIff(b: bytes, at: nat, sig: Sig)
    requires at + 64 <= |b|
    ensures Splice(b, at, sig)[at..at + 64] == sig
    ensures Splice(b, at, sig) == b <==> b[at..at + 64] == sig
  {
    if b[at..at + 64] == sig {
      assert b == b[..at] + b[at..at + 64] + b[at + 64..];
    }
  }

  /** The range matters: a slot index at or beyond the count is not refused. As long as the bytes are there, the signature
      goes over part of the message, which thereby stays the same only if it happened to read like that signature. */
  lemma SlotOutOfRangeHitsMessage(c: Scheme, tx: bytes, n: nat, start: nat, key: bytes, slot: nat)
    requires Shape(tx, n, start) && n <= slot && start + slot * 64 + 64 <= |tx|
    ensures var at := (slot - n) * 64; var before := tx[start + n * 64..];
            var after := SignAt(c, tx, key, slot)[start + n * 64..];
            && after[at..at + 64] == c.sign(key, before)
            && (after == before <==> before[at..at + 64] == c.sign(key, before))
  {
    var m, at := start + n * 64, (slot - n) * 64;
    var before := tx[m..];
    SpliceBehind(tx, m, m + at, c.sign(key, before));
    SpliceSameIff(before, at, c.sign(key, before));
    SignAtIs(c, tx, n, start, key, slot);
  }

  // ----- building ---------------------------------------------------------------------------------------

  const SYSTEM_PROGRAM: Key := [
    0, 0, 0, 0, 0, 0, 0, 0, 0, 0, 0, 0, 0, 0, 0, 0,
    0, 0, 0, 0, 0, 0, 0, 0, 0, 0, 0, 0, 0, 0, 0, 0]
  const TOKEN_PROGRAM: Key := [
    6, 221, 246, 225, 215, 101, 161, 147, 217, 203, 225, 70, 206, 235, 121, 172,
    28, 180, 133, 237, 95, 91, 55, 145, 58, 140, 245, 133, 126, 255, 0, 169]
  const ASSOCIATED_TOKEN_PROGRAM: Key := [
    140, 151, 37, 143, 78, 36, 137, 241, 187, 61, 16, 41, 20, 142, 13, 131,
    11, 90, 19, 153, 218, 255, 16, 132, 4, 142, 123, 216, 219, 233, 248, 89]
  const SYSVAR_RENT: Key := [
    6, 167, 213, 23, 24, 199, 116, 201, 40, 86, 99, 152, 105, 29, 94, 182,
    139, 94, 184, 163, 155, 75, 109, 92, 115, 85, 91, 33, 0, 0, 0, 0]
  const SYSVAR_RECENT_BLOCKHASHES: Key := [
    6, 167, 213, 23, 19, 172, 202, 82, 33, 140, 201, 76, 61, 74, 241, 127,
    88, 218, 238, 8, 155, 161, 253, 68, 227, 219, 217, 138, 0, 0, 0, 0]

  /** `n` in `k` bytes, lowest first. */
  function LittleEndian(n: nat, k: nat): (b: bytes)
    ensures |b| == k
  {
    if k == 0 then [] else [n % 256] + LittleEndian(n / 256, k - 1)
  }

  datatype Params = Params(compOffset: nat, amount: nat, encryptedAmount: Key, nonce: nat, encryptionPubKey: Key)

  /** `build_execute_payment_ix_data`: 104 bytes, the discriminator first. */
  function PaymentData(tag: Tag, p: Params): (d: bytes)
    ensures |d| == 104 && d[..8] == tag
  {
    tag + (LittleEndian(p.compOffset, 8) + LittleEndian(p.amount, 8) + p.encryptedAmount + LittleEndian(p.nonce, 16)
           + p.encryptionPubKey)
  }

  function FromLittleEndian(b: bytes): nat
  {
    if b == [] then 0 else b[0] as int + 256 * FromLittleEndian(b[1..])
  }

  /** 256 to the `k`. */
  function Limit(k: nat): nat { if k == 0 then 1 else 256 * Limit(k - 1) }

  lemma {:induction false} LittleEndianRoundTrip(n: nat, k: nat)
    requires n < Limit(k)
    ensures FromLittleEndian(LittleEndian(n, k)) == n
    decreases k
  {
    if k > 0 {
      LittleEndianRoundTrip(n / 256, k - 1);
      assert LittleEndian(n, k)[1..] == LittleEndian(n / 256, k - 1);
    }
  }

  /** The program reads back every parameter at its offset: u64, u64, 32 bytes, u128, 32 bytes. */
  lemma PaymentDataReads(tag: Tag, p: Params, w: nat, v: nat)
    requires w == 8 && v == 16 && p.compOffset < Limit(w) && p.amount < Limit(w) && p.nonce < Limit(v)
    ensures var d := PaymentData(tag, p);
            && d[..8] == tag && FromLittleEndian(d[8..16]) == p.compOffset && FromLittleEndian(d[16..24]) == p.amount
            && d[24..56] == p.encryptedAmount && FromLittleEndian(d[56..72]) == p.nonce && d[72..104] == p.encryptionPubKey
  {
    LittleEndianRoundTrip(p.compOffset, w);
    LittleEndianRoundTrip(p.amount, w);
    LittleEndianRoundTrip(p.nonce, v);
    PaymentDataParts(tag, LittleEndian(p.compOffset, w), LittleEndian(p.amount, w), p.encryptedAmount,
                     LittleEndian(p.nonce, v), p.encryptionPubKey);
  }

  lemma PaymentDataParts(tag: Tag, a: bytes, b: bytes, c: Key, d: bytes, e: Key)
    requires |a| == 8 && |b| == 8 && |d| == 16
    ensures var all := tag + (a + b + c + d + e);
            all[8..16] == a && all[16..24] == b && all[24..56] == c && all[56..72] == d && all[72..104] == e
  {
  }

  /** `position`: the first index of a key; the length when it is not there. */
  function Position(keys: seq<Key>, key: Key): (i: nat)
    ensures i <= |keys| && (i < |keys| ==> keys[i] == key) && (forall j :: 0 <= j < i ==> keys[j] != key)
  {
    if keys == [] || keys[0] == key then 0 else 1 + Position(keys[1..], key)
  }

  datatype Accounts = Accounts(payerAta: Key, recipient: Key, recipientAta: Key, broadcasterAta: Key, mint: Key, program: Key)

  /** The account table of the plain transaction. */
  function PlainKeys(payer: Key, broadcaster: Key, a: Accounts): (keys: seq<Key>)
    ensures |keys| == 12 && keys[0] == payer && keys[1] == broadcaster && keys[11] == a.program
  {
    [payer, broadcaster, a.payerAta, a.recipient, a.recipientAta, a.broadcasterAta, a.mint, TOKEN_PROGRAM, SYSTEM_PROGRAM,
     ASSOCIATED_TOKEN_PROGRAM, SYSVAR_RENT, a.program]
  }

  function Indices(keys: seq<Key>, wanted: seq<Key>): (r: bytes)
    requires |keys| < 256
    ensures |r| == |wanted|
  {
    if wanted == [] then [] else [Position(keys, wanted[0])] + Indices(keys, wanted[1..])
  }

  /** The accounts of the payment instruction, which is the table of the plain transaction without the program. */
  function PaymentInstruction(tag: Tag, keys: seq<Key>, payer: Key, broadcaster: Key, a: Accounts, p: Params): Instruction
    requires |keys| < 256
  {
    Instruction(Position(keys, a.program), Indices(keys, PlainKeys(payer, broadcaster, a)[..11]), PaymentData(tag, p))
  }

  /** The message of `build_unsigned_execute_payment`. */
  function PlainMessage(tag: Tag, payer: Key, broadcaster: Key, blockhash: Key, a: Accounts, p: Params): Message
  {
    var keys := PlainKeys(payer, broadcaster, a);
    Message(Header(2, 0, 6), keys, blockhash, [PaymentInstruction(tag, keys, payer, broadcaster, a, p)])
  }

  /** Every index refers to the wanted key, at its first place in the table: no lookup of either builder can fail. */
  lemma {:induction false} IndicesFind(keys: seq<Key>, wanted: seq<Key>)
    requires |keys| < 256 && forall i :: 0 <= i < |wanted| ==> wanted[i] in keys
    ensures var r := Indices(keys, wanted);
            forall i :: 0 <= i < |wanted| ==> r[i] < |keys| && keys[r[i]] == wanted[i]
    decreases |wanted|
  {
    if wanted != [] {
      var rest := wanted[1..];
      assert forall i :: 0 <= i < |rest| ==> rest[i] == wanted[i + 1];
      IndicesFind(keys, rest);
      FirstIndexFinds(keys, wanted);
    }
  }

  lemma FirstIndexFinds(keys: seq<Key>, wanted: seq<Key>)
    requires |keys| < 256 && wanted != [] && wanted[0] in keys
    ensures var r := Indices(keys, wanted);
            r[0] < |keys| && keys[r[0]] == wanted[0] && r[1..] == Indices(keys, wanted[1..])
  {
  }

  /** The accounts of the built instruction are the first eleven of the table, in order, each by its first place there. */
  lemma PlainAccountsResolve(tag: Tag, payer: Key, broadcaster: Key, blockhash: Key, a: Accounts, p: Params)
    ensures var m := PlainMessage(tag, payer, broadcaster, blockhash, a, p); var r := m.instructions[0].accountIndices;
            && m.header == Header(2, 0, 6) && |r| == 11
            && forall i :: 0 <= i < 11 ==> r[i] < 12 && m.keys[r[i]] == PlainKeys(payer, broadcaster, a)[i]
  {
    var keys := PlainKeys(payer, broadcaster, a);
    assert forall i :: 0 <= i < 11 ==> keys[..11][i] == keys[i] && keys[i] in keys;
    IndicesFind(keys, keys[..11]);
  }

  /** The same accounts in the durable-nonce transaction, whatever their places in the longer table. */
  lemma DurableAccountsResolve(tag: Tag, payer: Key, broadcaster: Key, nonceAccount: Key, blockhash: Key, a: Accounts,
                               p: Params)
    ensures var m := DurableMessage(tag, payer, broadcaster, nonceAccount, blockhash, a, p);
            var r := m.instructions[1].accountIndices;
            && m.header == Header(2, 0, 7) && |r| == 11
            && forall i :: 0 <= i < 11 ==> r[i] < 14 && m.keys[r[i]] == PlainKeys(payer, broadcaster, a)[i]
  {
    var keys, wanted := DurableKeys(payer, broadcaster, nonceAccount, a), PlainKeys(payer, broadcaster, a)[..11];
    forall i | 0 <= i < 11
      ensures wanted[i] in keys
    {
      assert wanted[i] == keys[if i < 2 then i else i + 1];
    }
    IndicesFind(keys, wanted);
  }

  function SigBytes(sigs: seq<Sig>): (b: bytes)
    ensures |b| == |sigs| * 64
  {
    if sigs == [] then [] else sigs[0] + SigBytes(sigs[1..])
  }

  /** `SolanaTransaction::serialize` */
  function TxBytes(sigs: seq<Sig>, message: bytes): bytes
  {
    Compact(Count(|sigs|)) + (SigBytes(sigs) + message)
  }

  method SerializeTransaction(sigs: seq<Sig>, m: Message) returns (out: bytes)
    ensures out == TxBytes(sigs, MessageBytes(m))
  {
    var count := EncodeCompact(Count(|sigs|));
    var body: bytes := [];
    for i := 0 to |sigs|
      invariant body == SigBytes(sigs[..i])
    {
      SigBytesSnoc(sigs[..i], sigs[i]);
      assert sigs[..i + 1] == sigs[..i] + [sigs[i]];
      body := body + sigs[i];
    }
    assert sigs[..|sigs|] == sigs;
    var message := SerializeMessage(m);
    out := count + body + message;
    Associate(count, body, message);
  }

  lemma {:induction false} SigBytesSnoc(sigs: seq<Sig>, s: Sig)
    ensures SigBytes(sigs + [s]) == SigBytes(sigs) + s
    decreases |sigs|
  {
    if sigs == [] {
      var one := [s];
      assert one[1..] == [];
      assert sigs + one == one && SigBytes(one) == s + SigBytes(one[1..]);
    } else {
      SigBytesSnoc(sigs[1..], s);
      assert (sigs + [s])[1..] == sigs[1..] + [s];
    }
  }

  method BuildUnsignedExecutePayment(tag: Tag, payer: Key, broadcaster: Key, blockhash: Key, a: Accounts, p: Params)
    returns (tx: bytes)
    ensures tx == TxBytes([NO_SIG, NO_SIG], MessageBytes(PlainMessage(tag, payer, broadcaster, blockhash, a, p)))
  {
    tx := SerializeTransaction([NO_SIG, NO_SIG], PlainMessage(tag, payer, broadcaster, blockhash, a, p));
  }

  /** The account table of the durable-nonce transaction. */
  function DurableKeys(payer: Key, broadcaster: Key, nonceAccount: Key, a: Accounts): (keys: seq<Key>)
    ensures |keys| == 14
  {
    [payer, broadcaster, nonceAccount, a.payerAta, a.recipient, a.recipientAta, a.broadcasterAta, a.mint, TOKEN_PROGRAM,
     SYSTEM_PROGRAM, ASSOCIATED_TOKEN_PROGRAM, SYSVAR_RENT, SYSVAR_RECENT_BLOCKHASHES, a.program]
  }

  /** The message of `partial_sign_execute_payment`: the nonce is advanced first. */
  function DurableMessage(tag: Tag, payer: Key, broadcaster: Key, nonceAccount: Key, blockhash: Key, a: Accounts, p: Params):
    Message
  {
    var keys := DurableKeys(payer, broadcaster, nonceAccount, a);
    var advance := Instruction(Position(keys, SYSTEM_PROGRAM), Indices(keys, [nonceAccount, SYSVAR_RECENT_BLOCKHASHES, payer]),
                               [4, 0, 0, 0]);
    Message(Header(2, 0, 7), keys, blockhash, [advance, PaymentInstruction(tag, keys, payer, broadcaster, a, p)])
  }

  method PartialSignExecutePayment(c: Scheme, tag: Tag, key: bytes, broadcaster: Key, nonceAccount: Key, payer: Key,
                                   blockhash: Key, a: Accounts, p: Params) returns (tx: bytes)
    ensures var m := MessageBytes(DurableMessage(tag, payer, broadcaster, nonceAccount, blockhash, a, p));
            tx == TxBytes([c.sign(key, m), NO_SIG], m)
  {
    var message := DurableMessage(tag, payer, broadcaster, nonceAccount, blockhash, a, p);
    var msgBytes := SerializeMessage(message);
    var signatures := [NO_SIG, NO_SIG];
    signatures := signatures[0 := c.sign(key, msgBytes)];
    tx := SerializeTransaction(signatures, message);
  }

  // ----- the beacon -------------------------------------------------------------------------------------

  datatype Refusal = BadCount | TooFewSigners | TooShort | NoPayerKey | BadPayerSignature | NotExecutePayment
  datatype Answer = CoSigned(tx: bytes) | Refused(why: Refusal)

  /** The checks of `cosign_and_submit`, in order. */
  function CoSignAnswer(c: Scheme, tx: bytes, key: bytes, program: Key, tag: Tag): Answer
  {
    match ReadCompact(tx)
    case None => Refused(BadCount)
    case Some((n, start)) =>
      if n < 2 then Refused(TooFewSigners)
      else if |tx| < start + n * 64 then Refused(TooShort)
      else
        var message := tx[start + n * 64..];
        match ExtractKey(message, 0)
        case None => Refused(NoPayerKey)
        case Some(payer) =>
          if !VerifySlot(c, tx, payer, 0) then Refused(BadPayerSignature)
          else if !Gate(AtHeader, message, program, tag) then Refused(NotExecutePayment)
          else CoSigned(SignAt(c, tx, key, 1))
  }

  method ExtractAccountKey(message: bytes, index: nat) returns (r: Option<Key>)
    ensures r == ExtractKey(message, index)
  {
    if |message| < 3 {
      return None;
    }
    var count := ReadCompactU16(message[3..]);
    if count.None? {
      return None;
    }
    if index >= count.value.0 {
      return None;
    }
    var keyStart := 3 + count.value.1 + index * 32;
    if keyStart + 32 > |message| {
      return None;
    }
    return Some(message[keyStart..keyStart + 32]);
  }

  /** `cosign_and_submit` up to the submission. Slot 1 is written at its fixed place, which is always in range. */
  method CoSignTransaction(c: Scheme, tx: bytes, key: bytes, program: Key, tag: Tag) returns (r: Answer)
    ensures r == CoSignAnswer(c, tx, key, program, tag)
  {
    var parsed := ReadCompactU16(tx);
    if parsed.None? {
      return Refused(BadCount);
    }
    var (numSigs, consumed) := parsed.value;
    if numSigs < 2 {
      return Refused(TooFewSigners);
    }
    var sig1Start := consumed + 64;
    var sig1End := sig1Start + 64;
    var msgStart := consumed + numSigs * 64;
    if |tx| < msgStart {
      return Refused(TooShort);
    }
    var message := tx[msgStart..];
    var payer := ExtractAccountKey(message, 0);
    if payer.None? {
      return Refused(NoPayerKey);
    }
    var signed := VerifySlotSignature(c, tx, payer.value, 0);
    if !signed {
      return Refused(BadPayerSignature);
    }
    var valid := VerifyExecutePayment(message, program, tag);
    if !valid {
      return Refused(NotExecutePayment);
    }
    var sig := c.sign(key, message);
    return CoSigned(tx[..sig1Start] + sig + tx[sig1End..]);
  }

  // ----- both rounds together ---------------------------------------------------------------------------

  lemma TxShape(sigs: seq<Sig>, message: bytes) returns (start: nat)
    requires |sigs| < 0x1_0000
    ensures start == |Compact(|sigs|)| && Shape(TxBytes(sigs, message), |sigs|, start)
    ensures TxBytes(sigs, message)[start + |sigs| * 64..] == message
    ensures sigs != [] ==> Slot(TxBytes(sigs, message), start, 0) == sigs[0]
  {
    start := |Compact(|sigs|)|;
    var tx, rest := TxBytes(sigs, message), SigBytes(sigs) + message;
    CompactRoundTrip(|sigs|, rest);
    Associate(Compact(|sigs|), SigBytes(sigs), message);
    Behind(Compact(|sigs|) + SigBytes(sigs), message);
    if sigs != [] {
      assert tx[start..] == rest && rest[..64] == sigs[0];
    }
  }

  lemma AnswerIff(c: Scheme, tx: bytes, n: nat, start: nat, message: bytes, key: bytes, program: Key, tag: Tag)
    requires Shape(tx, n, start) && message == tx[start + n * 64..]
    ensures CoSignAnswer(c, tx, key, program, tag).CoSigned?
            <==> n >= 2 && (var payer := ExtractKey(message, 0);
                            payer.Some? && c.verify(payer.value, message, Slot(tx, start, 0)))
                 && Gate(AtHeader, message, program, tag)
  {
  }

  /** When the beacon co-signs a transaction that is well formed: exactly when at least two signatures are declared, the
      first account's signature is valid, and the first instruction is the payment. */
  lemma CoSignedIff(c: Scheme, sigs: seq<Sig>, m: Message, key: bytes, program: Key, tag: Tag)
    requires |sigs| < 0x1_0000 && Countable(m)
    ensures CoSignAnswer(c, TxBytes(sigs, MessageBytes(m)), key, program, tag).CoSigned?
            <==> |sigs| >= 2 && m.keys != [] && c.verify(m.keys[0], MessageBytes(m), sigs[0]) && Calls(m, program, tag)
  {
    var start := TxShape(sigs, MessageBytes(m));
    AnswerIff(c, TxBytes(sigs, MessageBytes(m)), |sigs|, start, MessageBytes(m), key, program, tag);
    ExtractKeyIff(m, 0);
    GateIff(m, program, tag);
  }

  lemma PlainMessageCalls(tag: Tag, payer: Key, broadcaster: Key, blockhash: Key, a: Accounts, p: Params)
    ensures var m := PlainMessage(tag, payer, broadcaster, blockhash, a, p);
            Countable(m) && Calls(m, a.program, tag) && m.keys[0] == payer && m.keys[1] == broadcaster
  {
  }

  /** Signing slot 0 of the unsigned transaction is the transaction with that signature. */
  lemma SignedUnsigned(c: Scheme, message: bytes, key: bytes) returns (start: nat)
    ensures SignAt(c, TxBytes([NO_SIG, NO_SIG], message), key, 0) == TxBytes([c.sign(key, message), NO_SIG], message)
    ensures Shape(TxBytes([c.sign(key, message), NO_SIG], message), 2, start)
    ensures TxBytes([c.sign(key, message), NO_SIG], message)[start + 128..] == message
    ensures Slot(TxBytes([c.sign(key, message), NO_SIG], message), start, 0) == c.sign(key, message)
  {
    var unsigned, sig := TxBytes([NO_SIG, NO_SIG], message), c.sign(key, message);
    start := TxShape([NO_SIG, NO_SIG], message);
    var again := TxShape([sig, NO_SIG], message);
    TwoSigs(NO_SIG, message);
    TwoSigs(sig, message);
    SignAtIs(c, unsigned, 2, start, key, 0);
    SpliceFront(Compact(2), NO_SIG, sig, NO_SIG + message);
  }

  lemma SpliceFront(front: bytes, before: Sig, after: Sig, rest: bytes)
    ensures Splice(front + (before + rest), |front|, after) == front + (after + rest)
  {
    var tx := front + (before + rest);
    assert tx[..|front|] == front && tx[|front| + 64..] == rest;
  }

  lemma TwoSigs(first: Sig, message: bytes)
    ensures TxBytes([first, NO_SIG], message) == Compact(2) + (first + (NO_SIG + message))
  {
    var two, one := [first, NO_SIG], [NO_SIG];
    assert two[1..] == one && one[1..] == [];
    assert SigBytes(one) == NO_SIG + SigBytes(one[1..]) == NO_SIG;
    assert SigBytes(two) == first + NO_SIG;
    Associate(first, NO_SIG, message);
  }

  /** The honest run: the beacon builds, the client signs slot 0, the beacon checks and signs slot 1. Whatever the accounts,
      equal ones included, it is never refused, the message stays as built, and both slots verify under account keys 0 and 1. */
  lemma HonestCoSign(c: Scheme, tag: Tag, clientKey: bytes, beaconKey: bytes, blockhash: Key, a: Accounts, p: Params)
    requires Sound(c)
    ensures var m := PlainMessage(tag, c.pub(clientKey), c.pub(beaconKey), blockhash, a, p);
            var unsigned := TxBytes([NO_SIG, NO_SIG], MessageBytes(m));
            var signed := SignAt(c, unsigned, clientKey, 0);
            var answer := CoSignAnswer(c, signed, beaconKey, a.program, tag);
            && answer.CoSigned?
            && VerifySlot(c, answer.tx, m.keys[0], 0) && VerifySlot(c, answer.tx, m.keys[1], 1)
            && |answer.tx| >= |MessageBytes(m)| && answer.tx[|answer.tx| - |MessageBytes(m)|..] == MessageBytes(m)
  {
    var m := PlainMessage(tag, c.pub(clientKey), c.pub(beaconKey), blockhash, a, p);
    var message := MessageBytes(m);
    PlainMessageCalls(tag, c.pub(clientKey), c.pub(beaconKey), blockhash, a, p);
    var start := SignedUnsigned(c, message, clientKey);
    var sigs := [c.sign(clientKey, message), NO_SIG];
    CoSignedIff(c, sigs, m, beaconKey, a.program, tag);
    Finish(c, TxBytes(sigs, message), start, message, clientKey, beaconKey);
  }

  /** Signing slot 1 of a transaction whose slot 0 is already signed. */
  lemma Finish(c: Scheme, tx: bytes, start: nat, message: bytes, clientKey: bytes, beaconKey: bytes)
    requires Sound(c) && Shape(tx, 2, start) && tx[start + 128..] == message
    requires VerifySlot(c, tx, c.pub(clientKey), 0)
    ensures var full := SignAt(c, tx, beaconKey, 1);
            && VerifySlot(c, full, c.pub(clientKey), 0) && VerifySlot(c, full, c.pub(beaconKey), 1)
            && |full| >= |message| && full[|full| - |message|..] == message
  {
    SignThenVerify(c, tx, 2, start, beaconKey, 1, c.pub(clientKey), 0);
    var sig, full := SignInRange(c, tx, 2, start, beaconKey, 1);
  }

  /** A signature verifies under no key but its signer's. */
  ghost predicate Exclusive(c: Scheme)
  {
    forall k, m, p :: c.verify(p, m, c.sign(k, m)) ==> p == c.pub(k)
  }

  /** The beacon never looks whether the second account is its own: of any transaction it co-signs, slot 1 verifies under
      account key 1 if and only if that key is the beacon's. */
  lemma SecondSlotVerifiesIff(c: Scheme, sigs: seq<Sig>, m: Message, key: bytes, program: Key, tag: Tag)
    requires Sound(c) && Exclusive(c) && |sigs| < 0x1_0000 && |m.keys| >= 2
    requires CoSignAnswer(c, TxBytes(sigs, MessageBytes(m)), key, program, tag).CoSigned?
    ensures var answer := CoSignAnswer(c, TxBytes(sigs, MessageBytes(m)), key, program, tag);
            VerifySlot(c, answer.tx, m.keys[1], 1) <==> m.keys[1] == c.pub(key)
  {
    var tx := TxBytes(sigs, MessageBytes(m));
    var start := TxShape(sigs, MessageBytes(m));
    AnswerTx(c, tx, |sigs|, start, key, program, tag);
    SignedSlotVerifiesIff(c, tx, |sigs|, start, key, 1, m.keys[1]);
  }

  lemma AnswerTx(c: Scheme, tx: bytes, n: nat, start: nat, key: bytes, program: Key, tag: Tag)
    requires Shape(tx, n, start) && CoSignAnswer(c, tx, key, program, tag).CoSigned?
    ensures n >= 2 && CoSignAnswer(c, tx, key, program, tag).tx == SignAt(c, tx, key, 1)
  {
  }

  lemma SignedSlotVerifiesIff(c: Scheme, tx: bytes, n: nat, start: nat, key: bytes, slot: nat, other: Key)
    requires Sound(c) && Exclusive(c) && Shape(tx, n, start) && slot < n
    ensures VerifySlot(c, SignAt(c, tx, key, slot), other, slot) <==> other == c.pub(key)
  {
    var sig, out := SignInRange(c, tx, n, start, key, slot);
  }

  /** And it does co-sign with a stranger's key there: a payment built for any second account, signed by the client, passes
      all its checks, and then slot 1 verifies exactly when that account is the beacon's own. */
  lemma AnySecondAccountPasses(c: Scheme, tag: Tag, clientKey: bytes, beaconKey: bytes, second: Key, blockhash: Key,
                               a: Accounts, p: Params)
    requires Sound(c) && Exclusive(c)
    ensures var m := PlainMessage(tag, c.pub(clientKey), second, blockhash, a, p);
            var signed := TxBytes([c.sign(clientKey, MessageBytes(m)), NO_SIG], MessageBytes(m));
            var answer := CoSignAnswer(c, signed, beaconKey, a.program, tag);
            answer.CoSigned? && (VerifySlot(c, answer.tx, second, 1) <==> second == c.pub(beaconKey))
  {
    var m := PlainMessage(tag, c.pub(clientKey), second, blockhash, a, p);
    var sigs := [c.sign(clientKey, MessageBytes(m)), NO_SIG];
    PlainMessageCalls(tag, c.pub(clientKey), second, blockhash, a, p);
    CoSignedIff(c, sigs, m, beaconKey, a.program, tag);
    SecondSlotVerifiesIff(c, sigs, m, beaconKey, a.program, tag);
  }

  /** The other builder does not fit the gate: it puts the nonce advance first, whose four data bytes cannot hold the
      discriminator, so the beacon refuses every durable-nonce transaction, for all accounts and parameters. */
  lemma DurableNonceAlwaysRefused(c: Scheme, tag: Tag, clientKey: bytes, beaconKey: bytes, broadcaster: Key,
                                  nonceAccount: Key, blockhash: Key, a: Accounts, p: Params, sigs: seq<Sig>)
    requires |sigs| < 0x1_0000
    ensures var m := MessageBytes(DurableMessage(tag, c.pub(clientKey), broadcaster, nonceAccount, blockhash, a, p));
            CoSignAnswer(c, TxBytes(sigs, m), beaconKey, a.program, tag).Refused?
  {
    CoSignedIff(c, sigs, DurableMessage(tag, c.pub(clientKey), broadcaster, nonceAccount, blockhash, a, p), beaconKey,
                a.program, tag);
  }
}
