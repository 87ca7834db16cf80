/**
 Public keys: a number that stands for 32 big-endian bytes, and the addresses derived from seeds.
 The hash, the curve test and the text decoder are parameters.
 */
module PublicKey {
  import opened Bytes
  import opened Wrappers

  const PUBLIC_KEY_LENGTH: nat := 32
  const MAX_SEED_LENGTH: nat := 32

  // ----- numbers and their big-endian bytes

  function NumberOf(bytes: seq<Byte>): nat {
    if bytes == [] then 0 else NumberOf(bytes[..|bytes| - 1]) * 256 + bytes[|bytes| - 1]
  }

  /** The bytes of a number without leading zeros; none for zero. */
  function BytesOf(n: nat): seq<Byte> {
    if n == 0 then [] else BytesOf(n / 256) + [n % 256]
  }

  function Zeros(n: nat): seq<Byte> { seq(n, _ => 0) }

  lemma {:induction false} NumberOfBytesOf(n: nat)
    ensures NumberOf(BytesOf(n)) == n
  {
    if n != 0 {
      NumberOfBytesOf(n / 256);
      assert (BytesOf(n / 256) + [n % 256])[..|BytesOf(n / 256)|] == BytesOf(n / 256);
    }
  }

  lemma {:induction false} LeadingZerosDoNotCount(k: nat, bytes: seq<Byte>)
    ensures NumberOf(Zeros(k) + bytes) == NumberOf(bytes)
    decreases k + |bytes|
  {
    var all := Zeros(k) + bytes;
    if bytes != [] {
      assert all[..|all| - 1] == Zeros(k) + bytes[..|bytes| - 1];
      LeadingZerosDoNotCount(k, bytes[..|bytes| - 1]);
    } else if k != 0 {
      assert all[..|all| - 1] == Zeros(k - 1) + bytes;
      LeadingZerosDoNotCount(k - 1, bytes);
    }
  }

  lemma {:induction false} NumberFits(bytes: seq<Byte>)
    ensures NumberOf(bytes) < Pow256(|bytes|)
    decreases |bytes|
  {
    if bytes != [] { NumberFits(bytes[..|bytes| - 1]); }
  }

  /** A number needs at most k bytes exactly when it is below 256 to the k. */
  lemma {:induction false} LengthIff(n: nat, k: nat)
    ensures |BytesOf(n)| <= k <==> n < Pow256(k)
    decreases n
  {
    if n != 0 && k != 0 { LengthIff(n / 256, k - 1); }
  }

  /** Equally long byte strings with the same number are the same. */
  lemma {:induction false} SameNumberSameBytes(a: seq<Byte>, b: seq<Byte>)
    requires |a| == |b| && NumberOf(a) == NumberOf(b)
    ensures a == b
    decreases |a|
  {
    if a != [] {
      var n := |a| - 1;
      SameNumberSameBytes(a[..n], b[..n]);
      assert a == a[..n] + [a[n]] && b == b[..n] + [b[n]];
    }
  }

  /** A number's bytes behind zeros, to length k. */
  function Pad(n: nat, k: nat): (r: seq<Byte>)
    requires n < Pow256(k)
    ensures |r| == k
  {
    LengthIff(n, k);
    Zeros(k - |BytesOf(n)|) + BytesOf(n)
  }

  lemma PadStandsForNumber(n: nat, k: nat)
    requires n < Pow256(k)
    ensures NumberOf(Pad(n, k)) == n
  {
    LengthIff(n, k);
    LeadingZerosDoNotCount(k - |BytesOf(n)|, BytesOf(n));
    NumberOfBytesOf(n);
  }

  lemma PadRestores(bytes: seq<Byte>, k: nat)
    requires |bytes| <= k
    ensures NumberOf(bytes) < Pow256(k) && Pad(NumberOf(bytes), k) == Zeros(k - |bytes|) + bytes
  {
    var padded := Zeros(k - |bytes|) + bytes;
    LeadingZerosDoNotCount(k - |bytes|, bytes);
    NumberFits(padded);
    PadStandsForNumber(NumberOf(bytes), k);
    SameNumberSameBytes(Pad(NumberOf(bytes), k), padded);
  }

  /** A number with a nonzero byte in front of the last k bytes is too large for k bytes. */
  lemma LongNumber(bytes: seq<Byte>, k: nat, i: nat)
    requires i < |bytes| - k && bytes[i] != 0
    ensures NumberOf(bytes) >= Pow256(k)
  {
    var cut := |bytes| - k;
    assert bytes == bytes[..cut] + bytes[cut..] && bytes[..cut][i] != 0;
    NonzeroByte(bytes[..cut], i);
    HighBytes(bytes[..cut], bytes[cut..]);
  }

  /** Exactly the byte strings with only zeros in front of their last k bytes fit into k bytes. */
  lemma LastBytes(bytes: seq<Byte>, k: nat)
    ensures NumberOf(bytes) < Pow256(k) <==> forall i :: 0 <= i < |bytes| - k ==> bytes[i] == 0
    ensures NumberOf(bytes) < Pow256(k) ==>
              Pad(NumberOf(bytes), k) == if |bytes| <= k then Zeros(k - |bytes|) + bytes else bytes[|bytes| - k..]
  {
    if |bytes| <= k {
      PadRestores(bytes, k);
    } else if i :| 0 <= i < |bytes| - k && bytes[i] != 0 {
      LongNumber(bytes, k, i);
    } else {
      OnlyLeadingZeros(bytes, k);
    }
  }

  lemma OnlyLeadingZeros(bytes: seq<Byte>, k: nat)
    requires |bytes| > k && forall i :: 0 <= i < |bytes| - k ==> bytes[i] == 0
    ensures NumberOf(bytes) < Pow256(k) && Pad(NumberOf(bytes), k) == bytes[|bytes| - k..]
  {
    ZerosInFront(bytes, |bytes| - k);
    ZerosThenBytes(|bytes| - k, bytes[|bytes| - k..]);
  }

  lemma ZerosInFront(bytes: seq<Byte>, cut: nat)
    requires cut <= |bytes| && forall i :: 0 <= i < cut ==> bytes[i] == 0
    ensures bytes == Zeros(cut) + bytes[cut..]
  {
  }

  lemma ZerosThenBytes(zeros: nat, bytes: seq<Byte>)
    ensures
      var n := NumberOf(Zeros(zeros) + bytes);
      n < Pow256(|bytes|) && Pad(n, |bytes|) == bytes
  {
    LeadingZerosDoNotCount(zeros, bytes);
    PadRestores(bytes, |bytes|);
    assert Zeros(0) + bytes == bytes;
  }

  /** A front part that is not zero makes the number too large for the back part's length. */
  lemma {:induction false} HighBytes(front: seq<Byte>, back: seq<Byte>)
    requires NumberOf(front) >= 1
    ensures NumberOf(front + back) >= Pow256(|back|)
    decreases |back|
  {
    if back == [] {
      assert front + back == front;
    } else {
      var all := front + back;
      assert all[..|all| - 1] == front + back[..|back| - 1];
      HighBytes(front, back[..|back| - 1]);
    }
  }

  lemma {:induction false} NonzeroByte(bytes: seq<Byte>, i: nat)
    requires i < |bytes| && bytes[i] != 0
    ensures NumberOf(bytes) >= 1
    decreases |bytes|
  {
    if i < |bytes| - 1 { NonzeroByte(bytes[..|bytes| - 1], i); }
  }

  // ----- keys

  datatype Key = Key(bn: nat)

  /** What a key can be made from. The text decoder gives nothing for text it refuses. */
  datatype InitData = Existing(key: Key) | Text(text: string) | Bytes(bytes: seq<Byte>) | Number(number: nat)

  type Decoder = string -> Option<seq<Byte>>

  datatype Refusal = BadText | InvalidKey

  function FromNumber(n: nat): Result<Key, Refusal> {
    if |BytesOf(n)| > PUBLIC_KEY_LENGTH then Err(InvalidKey) else Ok(Key(n))
  }

  function Make(value: InitData, decode: Decoder): Result<Key, Refusal> {
    match value
    case Existing(key) => Ok(key)
    case Text(text) => (
      match decode(text)
      case None => Err(BadText)
      case Some(bytes) => if |bytes| != PUBLIC_KEY_LENGTH then Err(InvalidKey) else FromNumber(NumberOf(bytes)))
    case Bytes(bytes) => FromNumber(NumberOf(bytes))
    case Number(n) => FromNumber(n)
  }

  predicate Equals(a: Key, b: Key) { a.bn == b.bn }

  /** A key whose number the constructor checked. */
  predicate InRange(key: Key) { key.bn < Pow256(PUBLIC_KEY_LENGTH) }

  /** The 32 bytes of a key: its number's bytes behind zeros. */
  function ToBytes(key: Key): (r: seq<Byte>)
    requires InRange(key)
    ensures |r| == PUBLIC_KEY_LENGTH
  {
    Pad(key.bn, PUBLIC_KEY_LENGTH)
  }

  /** The number's bytes as a buffer: zero takes one byte. */
  function ArrayLike(n: nat): seq<Byte> { if n == 0 then [0] else BytesOf(n) }

  lemma PaddedArray(n: nat, k: nat)
    requires n < Pow256(k) && k > 0
    ensures |ArrayLike(n)| <= k && Zeros(k - |ArrayLike(n)|) + ArrayLike(n) == Pad(n, k)
  {
    LengthIff(n, k);
    if n == 0 { assert Zeros(k - 1) + [0] == Zeros(k) + []; }
  }

  method Copy(b: seq<Byte>, buffer: array<Byte>, start: nat)
    requires start + |b| == buffer.Length
    modifies buffer
    ensures buffer[..] == old(buffer[..start]) + b
  {
    for i := 0 to |b|
      invariant buffer[..start] == old(buffer[..start]) && buffer[start..start + i] == b[..i]
    {
      buffer[start + i] := b[i];
      assert buffer[start..start + i + 1] == buffer[start..start + i] + [b[i]];
    }
    assert buffer[..] == buffer[..start] + buffer[start..start + |b|];
  }

  method Allocated(b: seq<Byte>) returns (buffer: array<Byte>)
    ensures fresh(buffer) && buffer[..] == b
  {
    buffer := new Byte[|b|](i requires 0 <= i < |b| => b[i]);
  }

  method ZeroPadded(b: seq<Byte>) returns (buffer: array<Byte>)
    requires |b| <= PUBLIC_KEY_LENGTH
    ensures fresh(buffer) && buffer[..] == Zeros(PUBLIC_KEY_LENGTH - |b|) + b
  {
    var start := PUBLIC_KEY_LENGTH - |b|;
    buffer := new Byte[PUBLIC_KEY_LENGTH](_ => 0);
    assert buffer[..start] == Zeros(start);
    Copy(b, buffer, start);
  }

  /** The 32-byte buffer of a key. A number of more bytes, which only another key's unchecked number
      can be, makes the copy start before the buffer, which throws. */
  method ToBuffer(key: Key) returns (buffer: Option<array<Byte>>)
    ensures buffer.Some? <==> InRange(key)
    ensures buffer.Some? ==> fresh(buffer.value) && buffer.value[..] == ToBytes(key)
  {
    LengthIff(key.bn, PUBLIC_KEY_LENGTH);
    var b := ArrayLike(key.bn);
    if |b| == PUBLIC_KEY_LENGTH {
      var copy := Allocated(b);
      assert Zeros(0) + b == b;
      return Some(copy);
    }
    if PUBLIC_KEY_LENGTH < |b| { return None; }
    PaddedArray(key.bn, PUBLIC_KEY_LENGTH);
    var padded := ZeroPadded(b);
    return Some(padded);
  }

  // ----- what keys keep

  /** Bytes in front of the last 32 are allowed exactly when they are all zero; the key then has the
      last 32 bytes, behind zeros when there are fewer. */
  lemma BytesAcceptedIff(bytes: seq<Byte>, decode: Decoder)
    ensures Make(Bytes(bytes), decode).Ok? <==> forall i :: 0 <= i < |bytes| - PUBLIC_KEY_LENGTH ==> bytes[i] == 0
    ensures
      var r := Make(Bytes(bytes), decode);
      r.Ok? ==>
        && InRange(r.value)
        && if |bytes| <= 32 then ToBytes(r.value) == Zeros(32 - |bytes|) + bytes
           else ToBytes(r.value) == bytes[|bytes| - 32..]
  {
    LengthIff(NumberOf(bytes), PUBLIC_KEY_LENGTH);
    LastBytes(bytes, PUBLIC_KEY_LENGTH);
  }

  /** 32 bytes make a key with exactly those bytes. */
  lemma KeyRoundTrip(bytes: seq<Byte>, decode: Decoder)
    requires |bytes| == PUBLIC_KEY_LENGTH
    ensures
      var r := Make(Bytes(bytes), decode);
      r.Ok? && InRange(r.value) && ToBytes(r.value) == bytes
  {
    BytesAcceptedIff(bytes, decode);
    assert Zeros(0) + bytes == bytes;
  }

  /** Text makes a key exactly when it decodes to 32 bytes, and the key has those bytes. */
  lemma TextAcceptedIff(text: string, decode: Decoder)
    ensures Make(Text(text), decode).Ok? <==> decode(text).Some? && |decode(text).value| == PUBLIC_KEY_LENGTH
    ensures Make(Text(text), decode).Ok? ==>
              && InRange(Make(Text(text), decode).value)
              && decode(text) == Some(ToBytes(Make(Text(text), decode).value))
  {
    if decode(text).Some? && |decode(text).value| == PUBLIC_KEY_LENGTH {
      KeyRoundTrip(decode(text).value, decode);
    }
  }

  /** A key made again from its bytes is the same key. */
  lemma BytesRoundTrip(key: Key, decode: Decoder)
    requires InRange(key)
    ensures Make(Bytes(ToBytes(key)), decode) == Ok(key)
  {
    PadStandsForNumber(key.bn, PUBLIC_KEY_LENGTH);
    LengthIff(key.bn, PUBLIC_KEY_LENGTH);
  }

  /** Equal keys are exactly the keys with the same bytes. */
  lemma EqualsIffSameBytes(a: Key, b: Key)
    requires InRange(a) && InRange(b)
    ensures Equals(a, b) <==> ToBytes(a) == ToBytes(b)
  {
    PadStandsForNumber(a.bn, PUBLIC_KEY_LENGTH);
    PadStandsForNumber(b.bn, PUBLIC_KEY_LENGTH);
  }

  // ----- derived addresses

  type Digest = s: seq<Byte> | |s| == PUBLIC_KEY_LENGTH witness Zeros(32)

  type Hash = seq<Byte> -> Digest

  type CurveTest = Digest -> bool

  datatype DeriveError = SeedTooLong | BadProgram | OnCurve | NoViableNonce

  const MARKER: seq<Byte> := [
    80, 114, 111, 103, 114, 97, 109, 68, 101, 114, 105, 118, 101, 100, 65, 100, 100, 114, 101, 115, 115
  ]

  predicate SeedsFit(seeds: seq<seq<Byte>>) {
    forall i :: 0 <= i < |seeds| ==> |seeds[i]| <= 32
  }

  function Flat(seeds: seq<seq<Byte>>): seq<Byte> {
    if seeds == [] then [] else Flat(seeds[..|seeds| - 1]) + seeds[|seeds| - 1]
  }

  /** The digest an address is made of. */
  function Candidate(seeds: seq<seq<Byte>>, program: Key, hash: Hash): Digest
    requires InRange(program)
  {
    hash(Flat(seeds) + ToBytes(program) + MARKER)
  }

  /** Where seed `i` starts among the seeds put one after the other. */
  function StartOf(seeds: seq<seq<Byte>>, i: nat): nat
    requires i <= |seeds|
  {
    if i == 0 then 0 else StartOf(seeds, i - 1) + |seeds[i - 1]|
  }

  predicate SeedStands(x: seq<Byte>, seeds: seq<seq<Byte>>, i: nat)
    requires i < |seeds|
  {
    var start := StartOf(seeds, i);
    start + |seeds[i]| <= |x| && x[start..start + |seeds[i]|] == seeds[i]
  }

  /** The bytes an address is hashed from: the seeds in order, the program's 32 bytes, and a fixed text. */
  ghost predicate Preimage(x: seq<Byte>, seeds: seq<seq<Byte>>, program: Key)
    requires InRange(program)
  {
    var end, text := StartOf(seeds, |seeds|), "ProgramDerivedAddress";
    && |x| == end + 32 + |text|
    && (forall i: nat :: i < |seeds| ==> SeedStands(x, seeds, i))
    && x[end..end + 32] == ToBytes(program)
    && (forall k :: 0 <= k < |text| ==> x[end + 32 + k] == text[k] as int)
  }

  lemma {:induction false} FlatLength(seeds: seq<seq<Byte>>)
    ensures |Flat(seeds)| == StartOf(seeds, |seeds|)
    decreases |seeds|
  {
    if seeds != [] {
      FlatLength(seeds[..|seeds| - 1]);
      SameStart(seeds[..|seeds| - 1], seeds, |seeds| - 1);
    }
  }

  lemma {:induction false} FlatStands(seeds: seq<seq<Byte>>, i: nat)
    requires i < |seeds|
    ensures SeedStands(Flat(seeds), seeds, i)
    decreases |seeds|
  {
    var n := |seeds| - 1;
    SameStart(seeds[..n], seeds, i);
    if i < n { FlatStands(seeds[..n], i); } else { FlatLength(seeds[..n]); }
  }

  lemma {:induction false} SameStart(front: seq<seq<Byte>>, seeds: seq<seq<Byte>>, i: nat)
    requires front <= seeds && i <= |front|
    ensures StartOf(front, i) == StartOf(seeds, i)
    decreases i
  {
    if i > 0 { SameStart(front, seeds, i - 1); }
  }

  /** An address is the hash of exactly these bytes. */
  lemma CandidateIsHash(seeds: seq<seq<Byte>>, program: Key, hash: Hash)
    requires InRange(program)
    ensures exists x :: Preimage(x, seeds, program) && Candidate(seeds, program, hash) == hash(x)
  {
    var x := Flat(seeds) + ToBytes(program) + MARKER;
    FlatLength(seeds);
    forall i: nat | i < |seeds| ensures SeedStands(x, seeds, i) {
      FlatStands(seeds, i);
      var start, stop := StartOf(seeds, i), StartOf(seeds, i) + |seeds[i]|;
      assert x[start..stop] == Flat(seeds)[start..stop];
    }
    MarkerIsText();
    var end, text := StartOf(seeds, |seeds|), "ProgramDerivedAddress";
    assert x[end..end + 32] == ToBytes(program);
    forall k | 0 <= k < |text| ensures x[end + 32 + k] == text[k] as int {
      assert x[end + 32 + k] == MARKER[k];
    }
    assert Preimage(x, seeds, program);
  }

  lemma MarkerIsText()
    ensures |MARKER| == |"ProgramDerivedAddress"|
    ensures forall k :: 0 <= k < |MARKER| ==> MARKER[k] == "ProgramDerivedAddress"[k] as int
  {
  }

  method CreateProgramAddress(seeds: seq<seq<Byte>>, program: Key, hash: Hash, onCurve: CurveTest)
    returns (r: Result<Key, DeriveError>)
    ensures r == Err(SeedTooLong) <==> !SeedsFit(seeds)
    ensures r == Err(BadProgram) <==> SeedsFit(seeds) && !InRange(program)
    ensures r == Err(OnCurve) <==> SeedsFit(seeds) && InRange(program) && onCurve(Candidate(seeds, program, hash))
    ensures r.Ok? <==> SeedsFit(seeds) && InRange(program) && !onCurve(Candidate(seeds, program, hash))
    ensures r.Ok? ==> InRange(r.value) && ToBytes(r.value) == Candidate(seeds, program, hash)
  {
    var buffer: seq<Byte> := [];
    for i := 0 to |seeds|
      invariant SeedsFit(seeds[..i])
      invariant buffer == Flat(seeds[..i])
    {
      if |seeds[i]| > MAX_SEED_LENGTH {
        return Err(SeedTooLong);
      }
      assert seeds[..i + 1][..i] == seeds[..i];
      buffer := buffer + seeds[i];
    }
    assert seeds[..|seeds|] == seeds;
    var suffix := ToBuffer(program);
    if suffix.None? { return Err(BadProgram); }
    buffer := buffer + suffix.value[..] + MARKER;
    var digest := hash(buffer);
    if onCurve(digest) {
      return Err(OnCurve);
    }
    KeyRoundTrip(digest, _ => None);
    r := Ok(Make(Bytes(digest), _ => None).value);
  }

  /** A nonce that, added as a last seed, leads off the curve. */
  predicate Viable(seeds: seq<seq<Byte>>, program: Key, hash: Hash, onCurve: CurveTest, nonce: Byte) {
    InRange(program) && !onCurve(Candidate(seeds + [[nonce]], program, hash))
  }

  /** No nonce above this one is viable. */
  ghost predicate NoneAbove(seeds: seq<seq<Byte>>, program: Key, hash: Hash, onCurve: CurveTest, nonce: Byte) {
    forall n: Byte :: nonce < n <= 255 ==> !Viable(seeds, program, hash, onCurve, n)
  }

  /** The greatest viable nonce from 255 down to 1, or the reason there is none. */
  method FindProgramAddress(seeds: seq<seq<Byte>>, program: Key, hash: Hash, onCurve: CurveTest)
    returns (r: Result<(Key, Byte), DeriveError>)
    ensures r == Err(SeedTooLong) <==> !SeedsFit(seeds)
    ensures r == Err(NoViableNonce) <==> SeedsFit(seeds) && NoneAbove(seeds, program, hash, onCurve, 0)
    ensures r.Ok? ==>
              var (address, nonce) := r.value;
              && 1 <= nonce && Viable(seeds, program, hash, onCurve, nonce) && NoneAbove(seeds, program, hash, onCurve, nonce)
              && InRange(address) && ToBytes(address) == Candidate(seeds + [[nonce]], program, hash)
    ensures r.Ok? <==> SeedsFit(seeds) && !NoneAbove(seeds, program, hash, onCurve, 0)
  {
    var nonce: Byte := 255;
    while nonce != 0
      invariant nonce < 255 ==> SeedsFit(seeds)
      invariant NoneAbove(seeds, program, hash, onCurve, nonce)
    {
      var address := TryNonce(seeds, program, hash, onCurve, nonce);
      match address {
        case Ok(key) => return Ok((key, nonce));
        case Err(e) =>
          if e == SeedTooLong { return Err(SeedTooLong); }
          nonce := nonce - 1;
      }
    }
    r := Err(NoViableNonce);
  }

  method TryNonce(seeds: seq<seq<Byte>>, program: Key, hash: Hash, onCurve: CurveTest, nonce: Byte)
    returns (r: Result<Key, DeriveError>)
    ensures r == Err(SeedTooLong) <==> !SeedsFit(seeds)
    ensures r.Ok? <==> SeedsFit(seeds) && Viable(seeds, program, hash, onCurve, nonce)
    ensures r.Ok? ==> InRange(r.value) && ToBytes(r.value) == Candidate(seeds + [[nonce]], program, hash)
  {
    NonceSeedFits(seeds, nonce);
    r := CreateProgramAddress(seeds + [[nonce]], program, hash, onCurve);
  }

  lemma NonceSeedFits(seeds: seq<seq<Byte>>, nonce: Byte)
    ensures SeedsFit(seeds + [[nonce]]) <==> SeedsFit(seeds)
  {
    var all := seeds + [[nonce]];
    assert forall i :: 0 <= i < |seeds| ==> all[i] == seeds[i];
  }
}
