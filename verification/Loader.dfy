/**
 Loading a program: its bytes are cut into load messages, which the loader program writes into the
 account in whatever order they arrive.
 */
module Loader {
  import opened Bytes
  import opened Wrappers

  const U32_LIMIT: nat := 0x1_0000_0000
  const PACKET_DATA_SIZE: nat := 1280 - 40 - 8
  /** The source's chunk size; what follows holds for every size. */
  const CHUNK_SIZE: nat := PACKET_DATA_SIZE - 300

  // ----- load messages

  datatype Write = Write(offset: nat, bytes: seq<Byte>)

  /** The k lowest bytes of a number, least first. */
  function Little(n: nat, k: nat): (r: seq<Byte>)
    ensures |r| == k
    decreases k
  {
    if k == 0 then [] else [n % 256] + Little(n / 256, k - 1)
  }

  function FromLittle(b: seq<Byte>): nat {
    if b == [] then 0 else b[0] + FromLittle(b[1..]) * 256
  }

  function U32(n: nat): (r: seq<Byte>)
    ensures |r| == 4
  {
    Little(n, 4)
  }

  /** A load message; an offset or a count over 32 bits cannot be encoded, nor bytes that overrun the
      buffer. It has the size of a full chunk and keeps zeros behind a short one. */
  function Encode(w: Write, chunkSize: nat): Option<seq<Byte>> {
    if w.offset >= U32_LIMIT || |w.bytes| >= U32_LIMIT || |w.bytes| > chunkSize then None
    else Some(U32(0) + U32(w.offset) + U32(|w.bytes|) + U32(0) + w.bytes + seq(chunkSize - |w.bytes|, _ => 0))
  }

  function Decode(message: seq<Byte>): Option<Write> {
    if |message| < 16 || FromLittle(message[0..4]) != 0 then None
    else
      var count := FromLittle(message[8..12]);
      if 16 + count > |message| then None
      else Some(Write(FromLittle(message[4..8]), message[16..16 + count]))
  }

  lemma {:induction false} LittleRoundTrip(n: nat, k: nat)
    requires n < Pow256(k)
    ensures FromLittle(Little(n, k)) == n
    decreases k
  {
    if k != 0 {
      LittleRoundTrip(n / 256, k - 1);
      assert Little(n, k)[1..] == Little(n / 256, k - 1);
    }
  }

  lemma U32RoundTrip(n: nat)
    requires n < U32_LIMIT
    ensures FromLittle(U32(n)) == n
  {
    assert Pow256(4) == U32_LIMIT;
    LittleRoundTrip(n, 4);
  }

  /** A message carries exactly its write, for a short chunk as for a full one. */
  lemma MessageRoundTrip(w: Write, chunkSize: nat)
    requires Encode(w, chunkSize).Some?
    ensures Decode(Encode(w, chunkSize).value) == Some(w)
  {
    var m := Encode(w, chunkSize).value;
    U32RoundTrip(0);
    U32RoundTrip(w.offset);
    U32RoundTrip(|w.bytes|);
    assert m[0..4] == U32(0) && m[4..8] == U32(w.offset) && m[8..12] == U32(|w.bytes|);
    assert m[16..16 + |w.bytes|] == w.bytes;
  }

  /** Every byte of a message: the load instruction 0, offset and count in four bytes each, four zeros,
      the chunk, and zeros up to the size of a full chunk. */
  lemma MessageLayout(w: Write, chunkSize: nat)
    requires Encode(w, chunkSize).Some?
    ensures
      var m, n := Encode(w, chunkSize).value, |w.bytes|;
      && |m| == 16 + chunkSize && n <= chunkSize
      && (forall k :: 0 <= k < 4 ==> m[k] == 0)
      && m[4] as int + m[5] as int * 256 + m[6] as int * 65536 + m[7] as int * 16777216 == w.offset
      && m[8] as int + m[9] as int * 256 + m[10] as int * 65536 + m[11] as int * 16777216 == n
      && (forall k :: 12 <= k < 16 ==> m[k] == 0)
      && m[16..16 + n] == w.bytes
      && (forall k :: 16 + n <= k < |m| ==> m[k] == 0)
  {
    U32Bytes(0);
    U32Bytes(w.offset);
    U32Bytes(|w.bytes|);
    FourFields(U32(0), U32(w.offset), U32(|w.bytes|), U32(0), w.bytes + seq(chunkSize - |w.bytes|, _ => 0));
    var m := Encode(w, chunkSize).value;
    assert m == U32(0) + U32(w.offset) + U32(|w.bytes|) + U32(0) + (w.bytes + seq(chunkSize - |w.bytes|, _ => 0));
  }

  lemma FourFields(a: seq<Byte>, b: seq<Byte>, c: seq<Byte>, d: seq<Byte>, rest: seq<Byte>)
    requires |a| == |b| == |c| == |d| == 4
    ensures
      var m := a + b + c + d + rest;
      && (forall k :: 0 <= k < 4 ==> m[k] == a[k] && m[4 + k] == b[k] && m[8 + k] == c[k])
      && (forall k :: 12 <= k < 16 ==> m[k] == d[k - 12])
      && (forall k :: 16 <= k < |m| ==> m[k] == rest[k - 16])
  {
  }

  lemma U32Bytes(n: nat)
    requires n < U32_LIMIT
    ensures
      var b := U32(n);
      b[0] as int + b[1] as int * 256 + b[2] as int * 65536 + b[3] as int * 16777216 == n
    ensures n == 0 ==> U32(n) == [0, 0, 0, 0]
  {
    U32RoundTrip(n);
    var b := U32(n);
    assert FromLittle(b[3..]) == b[3] as int + FromLittle(b[3..][1..]) * 256;
    assert b[1..][1..] == b[2..] && b[2..][1..] == b[3..];
    assert FromLittle(b) == b[0] as int + FromLittle(b[1..]) * 256;
    assert FromLittle(b[1..]) == b[1] as int + FromLittle(b[2..]) * 256;
    assert FromLittle(b[2..]) == b[2] as int + FromLittle(b[3..]) * 256;
  }

  // ----- cutting

  function Take(data: seq<Byte>, n: nat): seq<Byte> { if n < |data| then data[..n] else data }

  function Drop(data: seq<Byte>, n: nat): seq<Byte> { if n < |data| then data[n..] else [] }

  function Chunks(data: seq<Byte>, offset: nat, chunkSize: nat): (r: seq<Write>)
    requires chunkSize > 0
    decreases |data|
  {
    if data == [] then []
    else [Write(offset, Take(data, chunkSize))] + Chunks(Drop(data, chunkSize), offset + chunkSize, chunkSize)
  }

  lemma {:induction false} ChunkSizes(data: seq<Byte>, offset: nat, chunkSize: nat)
    requires chunkSize > 0
    ensures forall i :: 0 <= i < |Chunks(data, offset, chunkSize)| ==> 0 < |Chunks(data, offset, chunkSize)[i].bytes| <= chunkSize
    decreases |data|
  {
    if data != [] { ChunkSizes(Drop(data, chunkSize), offset + chunkSize, chunkSize); }
  }

  function After(sent: seq<seq<Byte>>, rest: Option<seq<seq<Byte>>>): Option<seq<seq<Byte>>> {
    if rest.Some? then Some(sent + rest.value) else None
  }

  type Encoder = Write -> Option<seq<Byte>>

  function EncoderFor(chunkSize: nat): Encoder { w => Encode(w, chunkSize) }

  /** The messages of the chunks, if all can be encoded. */
  function Messages(chunks: seq<Write>, encode: Encoder): Option<seq<seq<Byte>>> {
    if chunks == [] then Some([])
    else
      match encode(chunks[0])
      case None => None
      case Some(m) => After([m], Messages(chunks[1..], encode))
  }

  lemma {:induction false} MessagesAre(chunks: seq<Write>, sent: seq<seq<Byte>>, encode: Encoder)
    requires |sent| == |chunks| && forall i :: 0 <= i < |sent| ==> encode(chunks[i]) == Some(sent[i])
    ensures Messages(chunks, encode) == Some(sent)
    decreases |chunks|
  {
    if chunks != [] {
      MessagesAre(chunks[1..], sent[1..], encode);
      assert sent == [sent[0]] + sent[1..];
    }
  }

  lemma {:induction false} MessagesIff(chunks: seq<Write>, encode: Encoder)
    ensures Messages(chunks, encode).Some? <==> forall i :: 0 <= i < |chunks| ==> encode(chunks[i]).Some?
    decreases |chunks|
  {
    if chunks != [] {
      MessagesIff(chunks[1..], encode);
      assert forall i :: 1 <= i < |chunks| ==> chunks[i] == chunks[1..][i - 1];
    }
  }

  /** The loop that sends the chunks; nothing when a message could not be encoded. */
  method SendChunks(data: seq<Byte>, chunkSize: nat, encode: Encoder) returns (transactions: Option<seq<seq<Byte>>>)
    requires chunkSize > 0
    ensures transactions == Messages(Chunks(data, 0, chunkSize), encode)
  {
    var offset := 0;
    var remaining := data;
    var sent: seq<seq<Byte>> := [];
    ghost var all, done: seq<Write>, rest := Chunks(data, 0, chunkSize), [], Chunks(data, 0, chunkSize);
    while |remaining| > 0
      invariant rest == Chunks(remaining, offset, chunkSize) && all == done + rest
      invariant |done| == |sent| && forall i :: 0 <= i < |sent| ==> encode(done[i]) == Some(sent[i])
      decreases |remaining|
    {
      var w := Write(offset, Take(remaining, chunkSize));
      NextChunk(rest, remaining, offset, chunkSize);
      var message := encode(w);
      if message.None? {
        MessagesIff(all, encode);
        assert all[|done|] == w;
        return None;
      }
      sent := sent + [message.value];
      offset := offset + chunkSize;
      remaining := Drop(remaining, chunkSize);
      MoveOne(done, rest);
      done, rest := done + [w], rest[1..];
    }
    assert all == done;
    MessagesAre(all, sent, encode);
    transactions := Some(sent);
  }

  lemma MoveOne(done: seq<Write>, rest: seq<Write>)
    requires rest != []
    ensures done + rest == (done + [rest[0]]) + rest[1..]
  {
  }

  lemma NextChunk(rest: seq<Write>, data: seq<Byte>, offset: nat, chunkSize: nat)
    requires chunkSize > 0 && rest == Chunks(data, offset, chunkSize) && data != []
    ensures rest != [] && rest[0] == Write(offset, Take(data, chunkSize))
    ensures rest[1..] == Chunks(Drop(data, chunkSize), offset + chunkSize, chunkSize)
  {
  }

  // ----- how many

  /** The quotient rounded up: the one number r with r - 1 < n / d <= r. */
  function Ceil(n: nat, d: nat): (r: nat)
    requires d > 0
    ensures n <= r * d < n + d
  {
    if n == 0 then 0 else 1 + Ceil(if d < n then n - d else 0, d)
  }

  function GetMinNumSignatures(dataLength: nat, chunkSize: nat): nat
    requires chunkSize > 0
  {
    2 * (Ceil(dataLength, chunkSize) + 1 + 1)
  }

  /** The signatures pay for one transaction per chunk, besides creating and finalizing. */
  lemma {:induction false} ChunkCount(data: seq<Byte>, offset: nat, chunkSize: nat)
    requires chunkSize > 0
    ensures |Chunks(data, offset, chunkSize)| == Ceil(|data|, chunkSize)
    ensures |Chunks(data, offset, chunkSize)| == GetMinNumSignatures(|data|, chunkSize) / 2 - 2
    decreases |data|
  {
    if data != [] {
      ChunkCount(Drop(data, chunkSize), offset + chunkSize, chunkSize);
    }
  }

  // ----- writing

  /** What the loader program does with a write that fits the account. */
  function Apply(account: seq<Byte>, w: Write): (r: seq<Byte>)
    ensures |r| == |account|
  {
    if w.offset + |w.bytes| > |account| then account
    else account[..w.offset] + w.bytes + account[w.offset + |w.bytes|..]
  }

  function ApplyAll(account: seq<Byte>, writes: seq<Write>): (r: seq<Byte>)
    ensures |r| == |account|
    decreases |writes|
  {
    if writes == [] then account else Apply(ApplyAll(account, writes[..|writes| - 1]), writes[|writes| - 1])
  }

  predicate Covers(w: Write, i: nat) { w.offset <= i < w.offset + |w.bytes| }

  /** A write of the data's own bytes at their own place. */
  ghost predicate Agrees(w: Write, data: seq<Byte>, base: nat) {
    base <= w.offset && w.offset + |w.bytes| <= base + |data| &&
    forall i: nat :: Covers(w, i) ==> w.bytes[i - w.offset] == data[i - base]
  }

  lemma {:induction false} ChunksAgree(data: seq<Byte>, offset: nat, chunkSize: nat)
    requires chunkSize > 0
    ensures forall k :: 0 <= k < |Chunks(data, offset, chunkSize)| ==> Agrees(Chunks(data, offset, chunkSize)[k], data, offset)
    decreases |data|
  {
    if data != [] {
      var rest := Drop(data, chunkSize);
      ChunksAgree(rest, offset + chunkSize, chunkSize);
      ChunkSizes(rest, offset + chunkSize, chunkSize);
      var chunks := Chunks(rest, offset + chunkSize, chunkSize);
      forall k | 0 <= k < |chunks|
        ensures Agrees(chunks[k], data, offset)
      {
        assert Agrees(chunks[k], rest, offset + chunkSize);
        assert |chunks[k].bytes| > 0;
      }
    }
  }

  /** Every byte of the data is in exactly one chunk. */
  lemma {:induction false} EachByteInOneChunk(data: seq<Byte>, offset: nat, chunkSize: nat, i: nat) returns (k: nat)
    requires chunkSize > 0 && offset <= i < offset + |data|
    ensures k < |Chunks(data, offset, chunkSize)| && Covers(Chunks(data, offset, chunkSize)[k], i)
    ensures forall j: nat :: j < |Chunks(data, offset, chunkSize)| && Covers(Chunks(data, offset, chunkSize)[j], i) ==> j == k
    decreases |data|
  {
    var rest := Chunks(Drop(data, chunkSize), offset + chunkSize, chunkSize);
    ChunksAgree(Drop(data, chunkSize), offset + chunkSize, chunkSize);
    if i < offset + chunkSize {
      k := 0;
      assert forall j: nat :: j < |rest| ==> !Covers(rest[j], i);
    } else {
      k := EachByteInOneChunk(Drop(data, chunkSize), offset + chunkSize, chunkSize, i);
      k := k + 1;
    }
  }

  /** A position no write covers keeps what it had. */
  lemma {:induction false} UncoveredIsKept(account: seq<Byte>, writes: seq<Write>, i: nat)
    requires i < |account| && forall k :: 0 <= k < |writes| ==> !Covers(writes[k], i)
    ensures ApplyAll(account, writes)[i] == account[i]
    decreases |writes|
  {
    if writes != [] { UncoveredIsKept(account, writes[..|writes| - 1], i); }
  }

  /** A position some agreeing write covers has the data's byte. */
  lemma {:induction false} CoveredIsData(account: seq<Byte>, writes: seq<Write>, data: seq<Byte>, i: nat)
    requires |account| == |data| && i < |data|
    requires forall k :: 0 <= k < |writes| ==> Agrees(writes[k], data, 0)
    requires exists k :: 0 <= k < |writes| && Covers(writes[k], i)
    ensures ApplyAll(account, writes)[i] == data[i]
    decreases |writes|
  {
    var last := writes[|writes| - 1];
    assert Agrees(last, data, 0);
    if !Covers(last, i) { CoveredIsData(account, writes[..|writes| - 1], data, i); }
  }

  /** Writes that are chunks of the data, in any order and with any repetition. */
  predicate Deliveries(writes: seq<Write>, chunks: seq<Write>) {
    forall k :: 0 <= k < |writes| ==> writes[k] in chunks
  }

  lemma DeliveriesAgree(writes: seq<Write>, data: seq<Byte>, chunkSize: nat)
    requires chunkSize > 0 && Deliveries(writes, Chunks(data, 0, chunkSize))
    ensures forall k :: 0 <= k < |writes| ==> Agrees(writes[k], data, 0)
  {
    ChunksAgree(data, 0, chunkSize);
  }

  /** Delivered in any order, with repetitions, the chunks rebuild the data whatever the account held,
      when and only when every chunk was delivered at least once. */
  lemma RebuildsIff(data: seq<Byte>, chunkSize: nat, writes: seq<Write>)
    requires chunkSize > 0 && Deliveries(writes, Chunks(data, 0, chunkSize))
    ensures (forall account: seq<Byte> :: |account| == |data| ==> ApplyAll(account, writes) == data) <==>
            (forall c :: c in Chunks(data, 0, chunkSize) ==> c in writes)
  {
    var chunks := Chunks(data, 0, chunkSize);
    if forall c :: c in chunks ==> c in writes {
      forall account: seq<Byte> | |account| == |data|
        ensures ApplyAll(account, writes) == data
      {
        AllDelivered(data, chunkSize, writes, account);
      }
    } else {
      var c :| c in chunks && c !in writes;
      var account := MissingChunkShows(data, chunkSize, writes, c);
    }
  }

  lemma AllDelivered(data: seq<Byte>, chunkSize: nat, writes: seq<Write>, account: seq<Byte>)
    requires chunkSize > 0 && Deliveries(writes, Chunks(data, 0, chunkSize)) && |account| == |data|
    requires forall c :: c in Chunks(data, 0, chunkSize) ==> c in writes
    ensures ApplyAll(account, writes) == data
  {
    DeliveriesAgree(writes, data, chunkSize);
    forall i: nat | i < |data|
      ensures ApplyAll(account, writes)[i] == data[i]
    {
      var k := EachByteInOneChunk(data, 0, chunkSize, i);
      var c := Chunks(data, 0, chunkSize)[k];
      assert c in writes;
      CoveredIsData(account, writes, data, i);
    }
  }

  lemma MissingChunkShows(data: seq<Byte>, chunkSize: nat, writes: seq<Write>, c: Write) returns (account: seq<Byte>)
    requires chunkSize > 0 && Deliveries(writes, Chunks(data, 0, chunkSize))
    requires c in Chunks(data, 0, chunkSize) && c !in writes
    ensures |account| == |data| && ApplyAll(account, writes) != data
  {
    var chunks := Chunks(data, 0, chunkSize);
    ChunksAgree(data, 0, chunkSize);
    ChunkSizes(data, 0, chunkSize);
    var i := c.offset;
    assert Agrees(c, data, 0) && Covers(c, i);
    account := data[i := if data[i] == 0 then 1 else 0];
    var k := EachByteInOneChunk(data, 0, chunkSize, i);
    assert chunks[k] == c;
    forall j | 0 <= j < |writes|
      ensures !Covers(writes[j], i)
    {
      var m: nat :| m < |chunks| && chunks[m] == writes[j];
      assert m != k;
    }
    UncoveredIsKept(account, writes, i);
  }

  // ----- the messages

  /** The messages sent carry exactly the chunks, in order. */
  lemma {:induction false} MessagesCarryChunks(chunks: seq<Write>, chunkSize: nat)
    requires Messages(chunks, EncoderFor(chunkSize)).Some?
    ensures |Messages(chunks, EncoderFor(chunkSize)).value| == |chunks|
    ensures forall i :: 0 <= i < |chunks| ==> Decode(Messages(chunks, EncoderFor(chunkSize)).value[i]) == Some(chunks[i])
    decreases |chunks|
  {
    if chunks != [] {
      MessageRoundTrip(chunks[0], chunkSize);
      MessagesCarryChunks(chunks[1..], chunkSize);
    }
  }

  lemma Distribute(k: nat, c: nat)
    requires k > 0
    ensures c + (k - 1) * c == k * c
  {
  }

  lemma {:induction false} ChunkOffset(data: seq<Byte>, offset: nat, chunkSize: nat, k: nat)
    requires chunkSize > 0 && k < |Chunks(data, offset, chunkSize)|
    ensures Chunks(data, offset, chunkSize)[k].offset == offset + k * chunkSize
    decreases k
  {
    if k > 0 {
      Distribute(k, chunkSize);
      ChunkOffset(Drop(data, chunkSize), offset + chunkSize, chunkSize, k - 1);
    }
  }

  /** No chunk starts after the last one. */
  lemma OffsetsGrow(data: seq<Byte>, chunkSize: nat, k: nat)
    requires chunkSize > 0 && k < |Chunks(data, 0, chunkSize)|
    ensures Chunks(data, 0, chunkSize)[k].offset <= (|Chunks(data, 0, chunkSize)| - 1) * chunkSize
  {
    ChunkOffset(data, 0, chunkSize, k);
    Times(k, |Chunks(data, 0, chunkSize)| - 1, chunkSize);
  }

  lemma EncodableIff(chunks: seq<Write>, chunkSize: nat, end: nat)
    requires chunks != [] && chunks[|chunks| - 1].offset == end && chunkSize < U32_LIMIT
    requires forall k :: 0 <= k < |chunks| ==> chunks[k].offset <= end && |chunks[k].bytes| <= chunkSize
    ensures Messages(chunks, EncoderFor(chunkSize)).Some? <==> end < U32_LIMIT
  {
    MessagesIff(chunks, EncoderFor(chunkSize));
    assert EncoderFor(chunkSize)(chunks[|chunks| - 1]).Some? <==> end < U32_LIMIT;
  }

  /** Sending works exactly when the last chunk's offset fits into 32 bits. */
  lemma SendableIff(data: seq<Byte>, chunkSize: nat)
    requires 0 < chunkSize < U32_LIMIT
    ensures Messages(Chunks(data, 0, chunkSize), EncoderFor(chunkSize)).Some? <==>
            data == [] || (Ceil(|data|, chunkSize) - 1) * chunkSize < U32_LIMIT
  {
    if data != [] {
      var chunks := Chunks(data, 0, chunkSize);
      ChunkCount(data, 0, chunkSize);
      ChunkSizes(data, 0, chunkSize);
      var end := (|chunks| - 1) * chunkSize;
      ChunkOffset(data, 0, chunkSize, |chunks| - 1);
      forall k | 0 <= k < |chunks|
        ensures chunks[k].offset <= end
      {
        OffsetsGrow(data, chunkSize, k);
      }
      EncodableIff(chunks, chunkSize, end);
    }
  }

  /** With the source's chunk size, data can be sent exactly up to 4,294,968,220 bytes. */
  lemma SourceSizeSendableIff(data: seq<Byte>)
    ensures Messages(Chunks(data, 0, CHUNK_SIZE), EncoderFor(CHUNK_SIZE)).Some? <==> |data| <= 4_294_968_220
  {
    SizedSendableIff(data, CHUNK_SIZE);
  }

  lemma SizedSendableIff(data: seq<Byte>, chunkSize: nat)
    requires chunkSize == CHUNK_SIZE
    ensures Messages(Chunks(data, 0, chunkSize), EncoderFor(chunkSize)).Some? <==> |data| <= 4_294_968_220
  {
    SendableIff(data, chunkSize);
    CeilWithin(|data|, Ceil(|data|, chunkSize));
  }

  lemma CeilWithin(n: nat, r: nat)
    requires n <= r * CHUNK_SIZE < n + CHUNK_SIZE
    ensures (n == 0 || (r - 1) * CHUNK_SIZE < U32_LIMIT) <==> n <= 4_294_968_220
  {
  }

  lemma Times(a: nat, b: nat, c: nat)
    requires a <= b
    ensures a * c <= b * c
  {
  }

  /** Loading sends one message per chunk, each carrying its chunk, and fails only for data too long
      for 32-bit offsets. */
  method Load(data: seq<Byte>, chunkSize: nat) returns (transactions: Option<seq<seq<Byte>>>)
    requires 0 < chunkSize < U32_LIMIT
    ensures transactions.Some? <==> data == [] || (Ceil(|data|, chunkSize) - 1) * chunkSize < U32_LIMIT
    ensures transactions.Some? ==>
              && |transactions.value| == GetMinNumSignatures(|data|, chunkSize) / 2 - 2
              && |transactions.value| == |Chunks(data, 0, chunkSize)|
              && forall i :: 0 <= i < |transactions.value| ==>
                   Decode(transactions.value[i]) == Some(Chunks(data, 0, chunkSize)[i])
  {
    transactions := SendChunks(data, chunkSize, EncoderFor(chunkSize));
    SendableIff(data, chunkSize);
    ChunkCount(data, 0, chunkSize);
    if transactions.Some? { MessagesCarryChunks(Chunks(data, 0, chunkSize), chunkSize); }
  }
}
