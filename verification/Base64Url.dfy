/** Unpadded base64url, as used by JSON Web Tokens. */
module Base64Url {
  import opened Arithmetic
  import opened Collections

  /** The encoding table: A-Z, a-z, 0-9, '-' and '_'. */
  function Char(v: nat): char
    requires v < 64
  {
    if v < 26 then 'A' + v as char
    else if v < 52 then 'a' + (v - 26) as char
    else if v < 62 then '0' + (v - 52) as char
    else if v == 62 then '-' else '_'
  }

  /** The value of an alphabet character, or -1. */
  function Value(c: char): (v: int)
    ensures -1 <= v < 64
  {
    if 'A' <= c <= 'Z' then c as int - 'A' as int
    else if 'a' <= c <= 'z' then c as int - 'a' as int + 26
    else if '0' <= c <= '9' then c as int - '0' as int + 52
    else if c == '-' then 62
    else if c == '_' then 63
    else -1
  }

  lemma CharValue(v: nat)
    requires v < 64
    ensures Value(Char(v)) == v
  {
  }

  // ---------------------------------------------------------------------
  // The definition on bit strings (section 5 of RFC 4648, no padding)
  // ---------------------------------------------------------------------

  function ByteBits(data: seq<byte>): (b: seq<bool>)
    ensures |b| == 8 * |data|
  {
    if data == [] then [] else Bits(data[0], 8) + ByteBits(data[1..])
  }

  function Zeros(n: nat): (b: seq<bool>)
    ensures |b| == n
  {
    seq(n, _ => false)
  }

  function Sextet(bits: seq<bool>): char
    requires |bits| == 6
  {
    ValBound(bits);
    SixtyFour();
    Char(Val(bits))
  }

  /** Six bits per character, the last group filled up with zeros. */
  function Chars(bits: seq<bool>): string
    decreases |bits|
  {
    if bits == [] then []
    else if |bits| < 6 then [Sextet(bits + Zeros(6 - |bits|))]
    else [Sextet(bits[..6])] + Chars(bits[6..])
  }

  lemma SixtyFour()
    ensures Pow2(6) == 64 && Pow2(8) == 256
  {
    assert Pow2(2) == 4 && Pow2(4) == 16;
  }

  /** The bits of the alphabet characters in s; any other character counts for nothing. */
  function CharBits(s: string): seq<bool> {
    if s == [] then [] else (if Value(s[0]) < 0 then [] else Bits(Value(s[0]), 6)) + CharBits(s[1..])
  }

  /** Eight bits per byte; left-over bits are dropped. */
  function Bytes(bits: seq<bool>): seq<byte>
    decreases |bits|
  {
    if |bits| < 8 then []
    else
      ValBound(bits[..8]);
      SixtyFour();
      [Val(bits[..8])] + Bytes(bits[8..])
  }

  function Encode(data: seq<byte>): string {
    Chars(ByteBits(data))
  }

  function Decode(s: string): seq<byte> {
    Bytes(CharBits(s))
  }

  // ---------------------------------------------------------------------
  // Round trip and what decoding ignores
  // ---------------------------------------------------------------------

  lemma {:induction false} CharBitsConcat(s: string, t: string)
    ensures CharBits(s + t) == CharBits(s) + CharBits(t)
  {
    if s == [] {
      assert s + t == t;
    } else {
      assert (s + t)[1..] == s[1..] + t;
      CharBitsConcat(s[1..], t);
    }
  }

  lemma SextetBits(bits: seq<bool>)
    requires |bits| == 6
    ensures CharBits([Sextet(bits)]) == bits
  {
    ValBound(bits);
    SixtyFour();
    CharValue(Val(bits));
    BitsOfVal(bits);
    assert [Sextet(bits)][1..] == [];
    assert bits + [] == bits;
  }

  /** The characters carry the bits, followed by fewer than six zeros. */
  lemma {:induction false} CharsCarryBits(bits: seq<bool>) returns (pad: nat)
    ensures pad < 6 && CharBits(Chars(bits)) == bits + Zeros(pad)
    decreases |bits|
  {
    hide Val;
    hide Bits;
    hide Sextet;
    if bits == [] {
      pad := 0;
    } else if |bits| < 6 {
      pad := 6 - |bits|;
      SextetBits(bits + Zeros(pad));
    } else {
      pad := CharsCarryBits(bits[6..]);
      SextetBits(bits[..6]);
      CharBitsConcat([Sextet(bits[..6])], Chars(bits[6..]));
      assert bits + Zeros(pad) == bits[..6] + (bits[6..] + Zeros(pad));
    }
  }

  lemma {:induction false} BytesOfByteBits(data: seq<byte>, extra: seq<bool>)
    requires |extra| < 8
    ensures Bytes(ByteBits(data) + extra) == data
  {
    hide Val;
    hide Bits;
    if data != [] {
      var bits := ByteBits(data) + extra;
      SixtyFour();
      ValOfBits(data[0], 8);
      assert bits[..8] == Bits(data[0], 8) && bits[8..] == ByteBits(data[1..]) + extra;
      BytesOfByteBits(data[1..], extra);
    } else {
      assert ByteBits(data) + extra == extra;
    }
  }

  /** Decoding what was encoded gives the bytes back. */
  lemma RoundTrip(data: seq<byte>)
    ensures Decode(Encode(data)) == data
  {
    var pad := CharsCarryBits(ByteBits(data));
    BytesOfByteBits(data, Zeros(pad));
  }

  lemma {:induction false} CharsLength(bits: seq<bool>)
    ensures |Chars(bits)| == (|bits| + 5) / 6
    decreases |bits|
  {
    if |bits| >= 6 {
      CharsLength(bits[6..]);
    }
  }

  /** n bytes take ceil(4n / 3) characters. */
  lemma EncodedLength(data: seq<byte>)
    ensures |Encode(data)| == (4 * |data| + 2) / 3
  {
    CharsLength(ByteBits(data));
  }

  /** Encoded text consists of alphabet characters only. */
  lemma {:induction false} CharsInAlphabet(bits: seq<bool>, i: nat)
    requires i < |Chars(bits)|
    ensures Value(Chars(bits)[i]) >= 0
    decreases |bits|
  {
    if |bits| < 6 {
      var group := bits + Zeros(6 - |bits|);
      ValBound(group);
      SixtyFour();
      CharValue(Val(group));
    } else if i == 0 {
      ValBound(bits[..6]);
      SixtyFour();
      CharValue(Val(bits[..6]));
    } else {
      CharsInAlphabet(bits[6..], i - 1);
    }
  }

  /** Characters outside the alphabet can be inserted anywhere without changing the result. */
  lemma JunkIsIgnored(s: string, c: char, t: string)
    requires Value(c) < 0
    ensures Decode(s + [c] + t) == Decode(s + t)
  {
    CharBitsConcat(s + [c], t);
    CharBitsConcat(s, [c]);
    CharBitsConcat(s, t);
    assert CharBits([c]) == [] by {
      assert [c][1..] == [];
    }
    assert CharBits(s) + [] == CharBits(s);
    assert s + [c] + t == (s + [c]) + t;
  }

  // ---------------------------------------------------------------------
  // The accumulator loops: 32-bit signed arithmetic that wraps around
  // ---------------------------------------------------------------------

  const TWO31: int := 0x8000_0000
  const TWO32: int := 0x1_0000_0000

  function Wrap32(x: int): int {
    (x + TWO31) % TWO32 - TWO31
  }

  lemma Pow2Of32()
    ensures Pow2(32) == TWO32
  {
    SixtyFour();
    Pow2Add(8, 8);
    Pow2Add(16, 16);
  }

  /** Wrapping keeps the low bits. */
  lemma WrapKeepsLow(x: int, k: nat)
    requires k <= 32
    ensures Wrap32(x) % Pow2(k) == x % Pow2(k)
  {
    hide Pow2;
    var m := (x + TWO31) / TWO32;
    assert Wrap32(x) == x - m * TWO32;
    Pow2Of32();
    Pow2Add(32 - k, k);
    var h := Pow2(32 - k);
    assert m * TWO32 == (m * h) * Pow2(k);
    ModMultiple(x, 0 - m * h, Pow2(k));
    assert x + (0 - m * h) * Pow2(k) == Wrap32(x);
  }

  /** The value shifted right by `shift` and cut down to below `size`. */
  function Window(val: int, shift: nat, size: nat): nat
    requires size > 0
  {
    val / Pow2(shift) % size
  }

  /** The accumulator holds the pending bits in its low end. */
  ghost predicate Holds(val: int, pending: seq<bool>) {
    val % Pow2(|pending|) == Val(pending)
  }

  lemma ShiftInArithmetic(val: int, d: nat, p: nat, low: nat, more: nat)
    requires d > 0 && p > 0 && val % d == low && low < d && more < p
    ensures d * p > 0 && (val * p + more) % (d * p) == low * p + more
  {
    var q := val / d;
    assert val == q * d + low;
    assert (q * d + low) * p == q * (d * p) + low * p;
    PairBound(low, more, p, d);
    DivModUnique(val * p + more, d * p, q, low * p + more);
  }

  /** Shifting new bits in from the right. */
  lemma ShiftIn(val: int, pending: seq<bool>, more: seq<bool>)
    requires Holds(val, pending) && |pending| + |more| <= 32
    ensures Holds(Wrap32(val * Pow2(|more|) + Val(more)), pending + more)
  {
    hide Pow2;
    hide Val;
    hide Wrap32;
    ValConcat(pending, more);
    ValBound(more);
    ValBound(pending);
    Pow2Add(|pending|, |more|);
    ShiftInArithmetic(val, Pow2(|pending|), Pow2(|more|), Val(pending), Val(more));
    WrapKeepsLow(val * Pow2(|more|) + Val(more), |pending| + |more|);
    assert |pending + more| == |pending| + |more|;
  }

  /** Reading the oldest pending bits and forgetting them. */
  lemma ReadOut(val: int, pending: seq<bool>, n: nat)
    requires Holds(val, pending) && n <= |pending|
    ensures Window(val, |pending| - n, Pow2(n)) == Val(pending[..n])
    ensures Holds(val, pending[n..])
  {
    hide Pow2;
    hide Val;
    var a := |pending| - n;
    MiddleBits(val, a, n);
    assert pending == pending[..n] + pending[n..];
    ValConcat(pending[..n], pending[n..]);
    ValBound(pending[n..]);
    DivModUnique(Val(pending), Pow2(a), Val(pending[..n]), Val(pending[n..]));
  }

  /** b64url_encode: the loop over bytes with a signed 32-bit accumulator equals the definition. */
  method EncodeLoop(data: seq<byte>) returns (out: string)
    ensures out == Encode(data)
  {
    hide Pow2;
    hide Val;
    hide Bits;
    out := [];
    var val, valb := 0, -6;
    ghost var pending: seq<bool> := [];
    assert Holds(0, []) by {
      EmptyHolds();
    }
    hide Holds;
    hide Wrap32;
    hide Window;
    hide ByteBits;
    hide Chars;
    assert data[0..] == data && pending + ByteBits(data) == ByteBits(data);
    for i := 0 to |data|
      invariant |pending| == valb + 6 && |pending| < 6 && Holds(val, pending)
      invariant out + Chars(pending + ByteBits(data[i..])) == Chars(ByteBits(data))
    {
      ghost var rest := ByteBits(data[i + 1..]);
      ByteShiftIn(val, pending, data[i]);
      FeedByte(pending, data, i);
      pending := pending + Bits(data[i], 8);
      val := Wrap32(val * 256 + data[i]);
      valb := valb + 8;
      while valb >= 0
        invariant |pending| == valb + 6 && |pending| < 14 && Holds(val, pending)
        invariant out + Chars(pending + rest) == Chars(ByteBits(data))
        decreases valb
      {
        ReadOut(val, pending, 6);
        SixtyFour();
        TakeSextet(out, pending, rest);
        out := out + [Char(Window(val, valb, 64))];
        pending := pending[6..];
        valb := valb - 6;
      }
    }
    assert pending + ByteBits(data[|data|..]) == pending by {
      NoBytesNoBits();
    }
    LastChars(pending);
    if valb > -6 {
      LastSextet(val, pending);
      out := out + [Char(Window(Wrap32(val * 256), valb + 8, 64))];
    }
  }

  lemma FeedByte(pending: seq<bool>, data: seq<byte>, i: nat)
    requires i < |data|
    ensures pending + ByteBits(data[i..]) == (pending + Bits(data[i], 8)) + ByteBits(data[i + 1..])
  {
    assert data[i..][1..] == data[i + 1..];
  }

  lemma LastChars(pending: seq<bool>)
    requires |pending| < 6
    ensures Chars(pending) == if pending == [] then [] else [Sextet(pending + Zeros(6 - |pending|))]
  {
  }

  lemma NoBytesNoBits()
    ensures ByteBits([]) == []
  {
  }

  lemma EmptyHolds()
    ensures Holds(0, [])
  {
    assert Pow2(0) == 1;
  }

  lemma ByteShiftIn(val: int, pending: seq<bool>, b: byte)
    requires Holds(val, pending) && |pending| <= 24
    ensures Holds(Wrap32(val * 256 + b), pending + Bits(b, 8))
  {
    SixtyFour();
    ValOfBits(b, 8);
    ShiftIn(val, pending, Bits(b, 8));
  }

  lemma TakeSextet(out: string, pending: seq<bool>, rest: seq<bool>)
    requires |pending| >= 6
    ensures Chars(pending + rest) == [Sextet(pending[..6])] + Chars(pending[6..] + rest)
    ensures out + Chars(pending + rest) == (out + [Sextet(pending[..6])]) + Chars(pending[6..] + rest)
  {
    assert (pending + rest)[..6] == pending[..6] && (pending + rest)[6..] == pending[6..] + rest;
  }

  /** The final character: shift left by eight, back right, and the missing bits are zeros. */
  lemma LastSextet(val: int, pending: seq<bool>)
    requires 0 < |pending| < 6 && Holds(val, pending)
    ensures Window(Wrap32(val * 256), |pending| + 2, 64) == Val(pending + Zeros(6 - |pending|))
  {
    var n := 6 - |pending|;
    ValZeros(8);
    assert Zeros(8) == Zeros(n) + Zeros(8 - n);
    SixtyFour();
    ShiftIn(val, pending, Zeros(8));
    var all := pending + Zeros(8);
    assert all[..6] == pending + Zeros(n);
    ReadOut(Wrap32(val * 256), all, 6);
  }

  lemma {:induction false} ValZeros(n: nat)
    ensures Val(Zeros(n)) == 0
  {
    if n > 0 {
      assert Zeros(n)[..n - 1] == Zeros(n - 1);
      ValZeros(n - 1);
    }
  }

  /** b64url_decode: the loop over characters equals the definition. */
  method DecodeLoop(s: string) returns (out: seq<byte>)
    ensures out == Decode(s)
  {
    hide Pow2;
    hide Val;
    hide Bits;
    out := [];
    var val, valb := 0, -8;
    ghost var pending: seq<bool> := [];
    assert Holds(0, []) by {
      EmptyHolds();
    }
    hide Holds;
    hide Wrap32;
    hide Window;
    hide CharBits;
    assert s[0..] == s && pending + CharBits(s) == CharBits(s);
    for i := 0 to |s|
      invariant |pending| == valb + 8 && |pending| < 8 && Holds(val, pending)
      invariant out + Bytes(pending + CharBits(s[i..])) == Bytes(CharBits(s))
    {
      ghost var rest := CharBits(s[i + 1..]);
      FeedChar(pending, s, i);
      var d := Value(s[i]);
      if d < 0 {
        continue;
      }
      SixtyFour();
      ValOfBits(d, 6);
      ShiftIn(val, pending, Bits(d, 6));
      pending := pending + Bits(d, 6);
      val := Wrap32(val * 64 + d);
      valb := valb + 6;
      if valb >= 0 {
        ReadOut(val, pending, 8);
        TakeByte(out, pending, rest);
        out := out + [Window(val, valb, 256)];
        pending := pending[8..];
        valb := valb - 8;
      }
    }
    assert pending + CharBits(s[|s|..]) == pending by {
      NoCharsNoBits();
    }
    assert Bytes(pending) == [];
  }

  lemma FeedChar(pending: seq<bool>, s: string, i: nat)
    requires i < |s|
    ensures pending + CharBits(s[i..]) ==
            (if Value(s[i]) < 0 then pending else pending + Bits(Value(s[i]), 6)) + CharBits(s[i + 1..])
  {
    assert s[i..][1..] == s[i + 1..];
  }

  lemma NoCharsNoBits()
    ensures CharBits([]) == []
  {
  }

  lemma TakeByte(out: seq<byte>, pending: seq<bool>, rest: seq<bool>)
    requires |pending| >= 8
    ensures Val(pending[..8]) < 256
    ensures out + Bytes(pending + rest) == (out + [Val(pending[..8])]) + Bytes(pending[8..] + rest)
  {
    ValBound(pending[..8]);
    SixtyFour();
    assert (pending + rest)[..8] == pending[..8] && (pending + rest)[8..] == pending[8..] + rest;
  }
}
