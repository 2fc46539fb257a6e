/** The wire format of a range answer: a 32-bit little-endian count, then for every pair the length and the
    bytes of its key and the length and the bytes of its value. */
module RangeCodec {
  import opened Base

  const TWO32: int := 0x1_0000_0000

  datatype DecodeError =
    | TooShort
    | TruncatedKeyLength
    | TruncatedKey
    | TruncatedValueLength
    | TruncatedValue

  type Decoded = Result<seq<KV>, DecodeError>

  /** The number that bytes hold, least significant byte first. */
  function LittleEndian(b: Bytes): (n: nat)
    decreases |b|
  {
    if b == [] then 0 else b[0] as nat + 0x100 * LittleEndian(b[1..])
  }

  function Le32(b: Bytes): (n: nat)
    requires |b| >= 4
  {
    LittleEndian(b[..4])
  }

  /** Go's uint32(n) of a length: it wraps around at 2^32. */
  function Uint32(n: nat): (r: nat)
    ensures r <= n && (n < TWO32 ==> r == n)
  {
    if n < TWO32 then n else Uint32(n - TWO32)
  }

  lemma {:induction false} Uint32IsRemainder(n: nat)
    ensures Uint32(n) == n % TWO32
  {
    if n >= TWO32 {
      Uint32IsRemainder(n - TWO32);
    }
  }

  // ----- The decoder -----

  /** Takes one length-prefixed field off the buffer. The length check sees only the low 32 bits of the
      buffer's own length. */
  function TakeField(buf: Bytes, noLength: DecodeError, noBytes: DecodeError): (r: Result<(Bytes, Bytes), DecodeError>)
    ensures r.Ok? ==> |r.value.1| < |buf|
  {
    if |buf| < 4 then Err(noLength)
    else
      var n, rest := Le32(buf), buf[4..];
      if Uint32(|rest|) < n then Err(noBytes) else Ok((rest[..n], rest[n..]))
  }

  function TakePair(buf: Bytes): (r: Result<(KV, Bytes), DecodeError>)
    ensures r.Ok? ==> |r.value.1| < |buf|
  {
    match TakeField(buf, TruncatedKeyLength, TruncatedKey)
    case Err(e) => Err(e)
    case Ok((key, afterKey)) =>
      match TakeField(afterKey, TruncatedValueLength, TruncatedValue)
      case Err(e) => Err(e)
      case Ok((value, afterValue)) => Ok((KV(key, value), afterValue))
  }

  function TakePairs(buf: Bytes, count: nat): Decoded
    decreases count
  {
    if count == 0 then Ok([])
    else
      match TakePair(buf)
      case Err(e) => Err(e)
      case Ok((kv, rest)) =>
        match TakePairs(rest, count - 1)
        case Err(e) => Err(e)
        case Ok(kvs) => Ok([kv] + kvs)
  }

  function Decode(buf: Bytes): Decoded {
    if |buf| < 4 then Err(TooShort) else TakePairs(buf[4..], Le32(buf))
  }

  /** The decoder's loop: it runs to an answer on every input, and no slice leaves the buffer. */
  method DecodeRangeBuf(input: Bytes) returns (r: Decoded)
    ensures r == Decode(input)
  {
    hide TakePairs, LittleEndian, Uint32, Prepend;
    var buf := input;
    if |buf| < 4 {
      return Err(TooShort);
    }
    var count := Le32(buf);
    buf := buf[4..];

    var pairs: seq<KV> := [];
    LoopStart(input);
    for i := 0 to count
      invariant Decode(input) == Prepend(pairs, TakePairs(buf, count - i))
    {
      ghost var start := buf;
      OneMorePair(pairs, start, count - i);
      if |buf| < 4 {
        return Err(TruncatedKeyLength);
      }
      var klen := Le32(buf);
      buf := buf[4..];
      if Uint32(|buf|) < klen {
        return Err(TruncatedKey);
      }
      var key := buf[..klen];
      buf := buf[klen..];
      assert TakeField(start, TruncatedKeyLength, TruncatedKey) == Ok((key, buf));
      ghost var middle := buf;

      if |buf| < 4 {
        return Err(TruncatedValueLength);
      }
      var vlen := Le32(buf);
      buf := buf[4..];
      if Uint32(|buf|) < vlen {
        return Err(TruncatedValue);
      }
      var value := buf[..vlen];
      buf := buf[vlen..];

      assert TakeField(middle, TruncatedValueLength, TruncatedValue) == Ok((value, buf));
      assert TakePair(start) == Ok((KV(key, value), buf));
      pairs := pairs + [KV(key, value)];
    }
    LoopEnd(pairs, buf);
    return Ok(pairs);
  }

  function Prepend(kvs: seq<KV>, r: Decoded): Decoded {
    if r.Ok? then Ok(kvs + r.value) else r
  }

  lemma LoopStart(buf: Bytes)
    requires |buf| >= 4
    ensures Decode(buf) == Prepend([], TakePairs(buf[4..], Le32(buf)))
  {
    var r := TakePairs(buf[4..], Le32(buf));
    if r.Ok? {
      assert [] + r.value == r.value;
    }
  }

  lemma LoopEnd(kvs: seq<KV>, buf: Bytes)
    ensures Prepend(kvs, TakePairs(buf, 0)) == Ok(kvs)
  {
    assert kvs + [] == kvs;
  }

  /** One turn of the loop, seen from the pairs collected so far. */
  lemma OneMorePair(kvs: seq<KV>, buf: Bytes, count: nat)
    requires count > 0
    ensures Prepend(kvs, TakePairs(buf, count)) ==
      match TakePair(buf)
      case Err(e) => Err(e)
      case Ok((kv, rest)) => Prepend(kvs + [kv], TakePairs(rest, count - 1))
  {
    if TakePair(buf).Ok? {
      var (kv, rest) := TakePair(buf).value;
      var r := TakePairs(rest, count - 1);
      if r.Ok? {
        assert kvs + ([kv] + r.value) == kvs + [kv] + r.value;
      }
    }
  }

  // ----- The encoding it inverts -----

  function ToBytes(n: nat, width: nat): (b: Bytes)
    ensures |b| == width
  {
    if width == 0 then [] else [(n % 0x100) as byte] + ToBytes(n / 0x100, width - 1)
  }

  function Bytes32(n: nat): (b: Bytes)
    ensures |b| == 4
  {
    ToBytes(n, 4)
  }

  /** Lengths and counts have 32 bits: only such lists have an encoding. */
  ghost predicate Encodable(kvs: seq<KV>) {
    |kvs| < TWO32 && FieldsFit(kvs)
  }

  ghost predicate FieldsFit(kvs: seq<KV>) {
    forall i :: 0 <= i < |kvs| ==> PairFits(kvs[i])
  }

  ghost predicate PairFits(kv: KV) {
    |kv.key| < TWO32 && |kv.value| < TWO32
  }

  ghost function EncodeField(s: Bytes): Bytes
    requires |s| < TWO32
  {
    Bytes32(|s|) + s
  }

  ghost function EncodePair(kv: KV): (b: Bytes)
    requires PairFits(kv)
    ensures |b| == 8 + |kv.key| + |kv.value|
  {
    EncodeField(kv.key) + EncodeField(kv.value)
  }

  ghost function EncodePairs(kvs: seq<KV>): Bytes
    requires FieldsFit(kvs)
  {
    if kvs == [] then []
    else EncodePair(kvs[0]) + EncodePairs(kvs[1..])
  }

  ghost function Encode(kvs: seq<KV>): Bytes
    requires Encodable(kvs)
  {
    Bytes32(|kvs|) + EncodePairs(kvs)
  }

  /** Both length checks of a pair pass when `after` more bytes follow it: what remains behind each length
      is, in its low 32 bits, at least that length. */
  predicate PairPasses(kv: KV, after: nat) {
    && |kv.key| <= Uint32(|kv.key| + 4 + |kv.value| + after)
    && |kv.value| <= Uint32(|kv.value| + after)
  }

  /** Every length check passes when `tail` more bytes follow the pairs. */
  ghost predicate ChecksPass(kvs: seq<KV>, tail: nat)
    requires FieldsFit(kvs)
  {
    kvs == [] || (PairPasses(kvs[0], |EncodePairs(kvs[1..])| + tail) && ChecksPass(kvs[1..], tail))
  }

  /** The value the source puts together with shifts and "or". */
  lemma Le32Value(b: Bytes)
    requires |b| >= 4
    ensures Le32(b) == b[0] as nat + b[1] as nat * 0x100 + b[2] as nat * 0x1_0000 + b[3] as nat * 0x100_0000
    ensures Le32(b) < TWO32
  {
    var c := b[..4];
    assert LittleEndian(c) == c[0] as nat + 0x100 * LittleEndian(c[1..]);
    assert LittleEndian(c[1..]) == c[1] as nat + 0x100 * LittleEndian(c[2..]) by { assert c[1..][1..] == c[2..]; }
    assert LittleEndian(c[2..]) == c[2] as nat + 0x100 * LittleEndian(c[3..]) by { assert c[2..][1..] == c[3..]; }
    assert LittleEndian(c[3..]) == c[3] as nat by { assert c[3..][1..] == []; }
  }

  lemma {:induction false} LittleEndianOfToBytes(n: nat, width: nat)
    requires n < Power256(width)
    ensures LittleEndian(ToBytes(n, width)) == n
  {
    if width > 0 {
      LittleEndianOfToBytes(n / 0x100, width - 1);
      assert ToBytes(n, width)[1..] == ToBytes(n / 0x100, width - 1);
    }
  }

  function Power256(k: nat): (p: nat)
    ensures p > 0
  {
    if k == 0 then 1 else 0x100 * Power256(k - 1)
  }

  lemma Power256Of4()
    ensures Power256(4) == TWO32
  {
    assert Power256(2) == 0x1_0000 && Power256(3) == 0x100_0000;
  }

  lemma LowestByte(low: nat, rest: nat)
    requires low < 0x100
    ensures (low + 0x100 * rest) % 0x100 == low && (low + 0x100 * rest) / 0x100 == rest
  {
  }

  lemma {:induction false} ToBytesOfLittleEndian(b: Bytes)
    ensures ToBytes(LittleEndian(b), |b|) == b
    decreases |b|
  {
    if b != [] {
      ToBytesOfLittleEndian(b[1..]);
      LowestByte(b[0] as nat, LittleEndian(b[1..]));
    }
  }

  lemma Le32OfBytes32(n: nat, rest: Bytes)
    requires n < TWO32
    ensures Le32(Bytes32(n) + rest) == n && (Bytes32(n) + rest)[4..] == rest
  {
    Power256Of4();
    LittleEndianOfToBytes(n, 4);
    assert (Bytes32(n) + rest)[..4] == Bytes32(n);
  }

  /** Four bytes and the number they hold determine each other. */
  lemma Bytes32OfLe32(buf: Bytes)
    requires |buf| >= 4
    ensures Le32(buf) < TWO32
    ensures buf == Bytes32(Le32(buf)) + buf[4..]
  {
    Le32Value(buf);
    ToBytesOfLittleEndian(buf[..4]);
    assert buf == buf[..4] + buf[4..];
  }

  lemma TakeFieldOfEncoding(s: Bytes, rest: Bytes, noLength: DecodeError, noBytes: DecodeError)
    requires |s| < TWO32
    ensures TakeField(EncodeField(s) + rest, noLength, noBytes)
         == if |s| <= Uint32(|s| + |rest|) then Ok((s, rest)) else Err(noBytes)
  {
    Le32OfBytes32(|s|, s + rest);
    assert EncodeField(s) + rest == Bytes32(|s|) + (s + rest);
    assert (s + rest)[..|s|] == s && (s + rest)[|s|..] == rest;
  }

  lemma TakePairOfEncoding(kv: KV, rest: Bytes)
    requires PairFits(kv)
    ensures if PairPasses(kv, |rest|) then TakePair(EncodePair(kv) + rest) == Ok((kv, rest))
            else TakePair(EncodePair(kv) + rest).Err?
  {
    hide TakeField;
    var afterKey := EncodeField(kv.value) + rest;
    var buf := EncodeField(kv.key) + afterKey;
    assert EncodePair(kv) + rest == buf;
    assert |kv.key| + 4 + |kv.value| + |rest| == |kv.key| + |afterKey|;
    TakeFieldOfEncoding(kv.key, afterKey, TruncatedKeyLength, TruncatedKey);
    if TakeField(buf, TruncatedKeyLength, TruncatedKey).Ok? {
      TakeFieldOfEncoding(kv.value, rest, TruncatedValueLength, TruncatedValue);
    }
  }

  lemma {:induction false} TakePairsOfEncoding(kvs: seq<KV>, tail: Bytes)
    requires FieldsFit(kvs)
    ensures if ChecksPass(kvs, |tail|) then TakePairs(EncodePairs(kvs) + tail, |kvs|) == Ok(kvs)
            else TakePairs(EncodePairs(kvs) + tail, |kvs|).Err?
    decreases |kvs|
  {
    hide TakePair, EncodePair;
    if kvs != [] {
      var rest := EncodePairs(kvs[1..]) + tail;
      assert EncodePairs(kvs) + tail == EncodePair(kvs[0]) + rest;
      TakePairOfEncoding(kvs[0], rest);
      if PairPasses(kvs[0], |rest|) {
        TakePairsOfEncoding(kvs[1..], tail);
        assert [kvs[0]] + kvs[1..] == kvs;
      }
    }
  }

  /** On inputs of any length, with anything after it, an encoding is decoded to its own list if every
      length check passes, and is rejected otherwise. */
  lemma {:induction false} DecodeOfEncoding(kvs: seq<KV>, tail: Bytes)
    requires Encodable(kvs)
    ensures Decode(Encode(kvs) + tail) == Ok(kvs) <==> ChecksPass(kvs, |tail|)
    ensures Decode(Encode(kvs) + tail).Err? <==> !ChecksPass(kvs, |tail|)
  {
    Le32OfBytes32(|kvs|, EncodePairs(kvs) + tail);
    assert Encode(kvs) + tail == Bytes32(|kvs|) + (EncodePairs(kvs) + tail);
    TakePairsOfEncoding(kvs, tail);
  }

  lemma {:induction false} ShortInputsPass(kvs: seq<KV>, tail: nat)
    requires FieldsFit(kvs)
    requires |EncodePairs(kvs)| + tail < TWO32
    ensures ChecksPass(kvs, tail)
  {
    if kvs != [] {
      ShortInputsPass(kvs[1..], tail);
    }
  }

  /** Decoding inverts encoding on every input shorter than 2^32 bytes, and ignores what follows. */
  lemma RoundTrip(kvs: seq<KV>, tail: Bytes)
    requires Encodable(kvs) && |Encode(kvs)| + |tail| < TWO32
    ensures Decode(Encode(kvs) + tail) == Ok(kvs)
  {
    ShortInputsPass(kvs, |tail|);
    DecodeOfEncoding(kvs, tail);
  }

  /** Above that length it does not: an encoding of one pair, 2^32 + 8 bytes long, that the decoder rejects. */
  lemma LongEncodingRejected() returns (kvs: seq<KV>)
    ensures Encodable(kvs) && |Encode(kvs)| == TWO32 + 8
    ensures Decode(Encode(kvs)).Err?
  {
    var kv := KV([0], seq(TWO32 - 5, i => 0));
    kvs := [kv];
    assert kvs[1..] == [];
    assert !PairPasses(kv, 0);
    assert Encode(kvs) + [] == Encode(kvs);
    DecodeOfEncoding(kvs, []);
  }

  // ----- What a successful decode says about its input -----

  lemma TakeFieldReencodes(buf: Bytes, noLength: DecodeError, noBytes: DecodeError)
    requires TakeField(buf, noLength, noBytes).Ok?
    ensures var (s, rest) := TakeField(buf, noLength, noBytes).value; |s| < TWO32 && buf == EncodeField(s) + rest
  {
    var (s, rest) := TakeField(buf, noLength, noBytes).value;
    Bytes32OfLe32(buf);
    assert buf[4..] == s + rest;
    assert buf == EncodeField(s) + rest;
  }

  lemma TakePairReencodes(buf: Bytes)
    requires TakePair(buf).Ok?
    ensures var (kv, rest) := TakePair(buf).value; PairFits(kv) && buf == EncodePair(kv) + rest
  {
    var (key, afterKey) := TakeField(buf, TruncatedKeyLength, TruncatedKey).value;
    var (value, rest) := TakeField(afterKey, TruncatedValueLength, TruncatedValue).value;
    TakeFieldReencodes(buf, TruncatedKeyLength, TruncatedKey);
    TakeFieldReencodes(afterKey, TruncatedValueLength, TruncatedValue);
    assert EncodeField(key) + (EncodeField(value) + rest) == EncodePair(KV(key, value)) + rest;
  }

  /** `buf` begins with the encoding of the pairs. */
  ghost predicate Begins(kvs: seq<KV>, buf: Bytes) {
    FieldsFit(kvs) && EncodePairs(kvs) <= buf
  }

  lemma {:induction false} TakePairsReencodes(buf: Bytes, count: nat)
    requires TakePairs(buf, count).Ok?
    ensures |TakePairs(buf, count).value| == count && Begins(TakePairs(buf, count).value, buf)
    decreases count
  {
    if count > 0 {
      var (kv, rest) := TakePair(buf).value;
      TakePairReencodes(buf);
      TakePairsReencodes(rest, count - 1);
      BeginsOneMore(kv, TakePairs(rest, count - 1).value, rest);
    }
  }

  lemma BeginsOneMore(kv: KV, kvs: seq<KV>, rest: Bytes)
    requires PairFits(kv) && Begins(kvs, rest)
    ensures Begins([kv] + kvs, EncodePair(kv) + rest)
  {
    assert ([kv] + kvs)[1..] == kvs;
    assert EncodePair(kv) + EncodePairs(kvs) <= EncodePair(kv) + rest;
  }

  /** A successful decode, of an input of any length, has read exactly the encoding of its answer. */
  lemma DecodeReencodes(buf: Bytes)
    requires Decode(buf).Ok?
    ensures Encodable(Decode(buf).value) && Encode(Decode(buf).value) <= buf
  {
    TakePairsReencodes(buf[4..], Le32(buf));
    Bytes32OfLe32(buf);
  }

  /** Below 2^32 bytes the decoder rejects exactly the inputs that no complete encoding begins. */
  lemma RejectsExactlyIncomplete(buf: Bytes)
    requires |buf| < TWO32
    ensures Decode(buf).Err? <==> !exists kvs :: Encodable(kvs) && Encode(kvs) <= buf
  {
    if Decode(buf).Ok? {
      DecodeReencodes(buf);
    }
    forall kvs | Encodable(kvs) && Encode(kvs) <= buf
      ensures Decode(buf).Ok?
    {
      var tail := buf[|Encode(kvs)|..];
      assert buf == Encode(kvs) + tail;
      RoundTrip(kvs, tail);
    }
  }

  /** Cutting an encoding anywhere makes it unreadable. */
  lemma StrictPrefixRejected(kvs: seq<KV>, cut: nat)
    requires Encodable(kvs) && cut < |Encode(kvs)| < TWO32
    ensures Decode(Encode(kvs)[..cut]).Err?
  {
    var buf := Encode(kvs)[..cut];
    if Decode(buf).Ok? {
      DecodeReencodes(buf);
      var other := Decode(buf).value;
      var tail := Encode(kvs)[|Encode(other)|..];
      assert Encode(kvs) == Encode(other) + tail;
      RoundTrip(other, tail);
      assert Encode(kvs) + [] == Encode(kvs);
      RoundTrip(kvs, []);
      assert false;
    }
  }

  // ----- The layout, said of the bytes themselves -----

  /** The number in the four bytes from i on, the least significant first. */
  function Number(buf: Bytes, i: nat): nat
    requires i + 4 <= |buf|
  {
    buf[i] as nat + 0x100 * buf[i + 1] as nat + 0x1_0000 * buf[i + 2] as nat + 0x100_0000 * buf[i + 3] as nat
  }

  lemma NumberIsLe32(buf: Bytes, i: nat)
    requires i + 4 <= |buf|
    ensures Number(buf, i) == Le32(buf[i..])
  {
    Le32Value(buf[i..]);
  }

  /** The input begins with a count, and is too short exactly if it does not. A count of zero is an empty list. */
  lemma CountLayout(buf: Bytes)
    ensures Decode(buf) == Err(TooShort) <==> |buf| < 4
    ensures |buf| >= 4 && Number(buf, 0) == 0 ==> Decode(buf) == Ok([])
    ensures |buf| >= 4 && Decode(buf).Ok? ==> |Decode(buf).value| == Number(buf, 0)
  {
    hide LittleEndian;
    if |buf| >= 4 {
      NumberIsLe32(buf, 0);
      assert buf[0..] == buf;
      TakesAll(buf[4..], Le32(buf));
    }
  }

  lemma {:induction false} TakesAll(buf: Bytes, count: nat)
    ensures TakePairs(buf, count) != Err(TooShort)
    ensures TakePairs(buf, count).Ok? ==> |TakePairs(buf, count).value| == count
  {
    hide LittleEndian, Uint32;
    if count > 0 && TakePair(buf).Ok? {
      TakesAll(TakePair(buf).value.1, count - 1);
    }
  }

  lemma FieldLayout(buf: Bytes, i: nat, noLength: DecodeError, noBytes: DecodeError)
    requires i <= |buf|
    ensures TakeField(buf[i..], noLength, noBytes) ==
      if |buf| - i < 4 then Err(noLength)
      else
        var n := Number(buf, i);
        if (|buf| - i - 4) % 0x1_0000_0000 < n then Err(noBytes) else Ok((buf[i + 4..i + 4 + n], buf[i + 4 + n..]))
  {
    hide LittleEndian, Uint32, Number;
    if |buf| - i >= 4 {
      NumberIsLe32(buf, i);
      Uint32IsRemainder(|buf| - i - 4);
      var rest, n := buf[i + 4..], Number(buf, i);
      assert buf[i..][4..] == rest;
      if n <= |rest| {
        assert rest[..n] == buf[i + 4..i + 4 + n] && rest[n..] == buf[i + 4 + n..];
      }
    }
  }

  /** If the count is not zero, the length of a key, the key, the length of a value and the value follow; what is
      missing is named, and a length is compared with what is left in 32 bits. Behind the first pair the input
      goes on as any input does behind its count, one less: that is what `next` holds. */
  lemma PairLayout(buf: Bytes, next: Bytes)
    requires |buf| >= 4 && Number(buf, 0) > 0 && |next| >= 4 && Number(next, 0) == Number(buf, 0) - 1
    ensures
      if |buf| < 8 then Decode(buf) == Err(TruncatedKeyLength)
      else
        var klen, left := Number(buf, 4), |buf| - 8;
        if left % 0x1_0000_0000 < klen then Decode(buf) == Err(TruncatedKey)
        else if left - klen < 4 then Decode(buf) == Err(TruncatedValueLength)
        else
          var vlen, behind := Number(buf, 8 + klen), left - klen - 4;
          if behind % 0x1_0000_0000 < vlen then Decode(buf) == Err(TruncatedValue)
          else
            next[4..] == buf[klen + 12 + vlen..] ==>
              var kv := KV(buf[8..8 + klen], buf[klen + 12..klen + 12 + vlen]);
              Decode(buf) == if Decode(next).Ok? then Ok([kv] + Decode(next).value) else Err(Decode(next).error)
  {
    hide LittleEndian, Uint32, Number, TakeField, TakePairs;
    NumberIsLe32(buf, 0);
    NumberIsLe32(next, 0);
    assert buf[0..] == buf && next[0..] == next;
    OnePair(buf[4..], Le32(buf));
    FieldLayout(buf, 4, TruncatedKeyLength, TruncatedKey);
    if TakeField(buf[4..], TruncatedKeyLength, TruncatedKey).Ok? {
      FieldLayout(buf, 8 + Number(buf, 4), TruncatedValueLength, TruncatedValue);
    }
  }

  lemma OnePair(buf: Bytes, count: nat)
    requires count > 0
    ensures TakePairs(buf, count) ==
      match TakePair(buf)
      case Err(e) => Err(e)
      case Ok((kv, rest)) =>
        if TakePairs(rest, count - 1).Ok? then Ok([kv] + TakePairs(rest, count - 1).value)
        else Err(TakePairs(rest, count - 1).error)
  {
    hide TakePair;
  }
}
