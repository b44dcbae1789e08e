/** LuaPack, the binary message format: a recursive encoder and decoder over bytes. */
module LuaPack {
  import opened Collections
  import opened Arithmetic

  type Bytes = seq<byte>

  datatype Result<T> = Ok(value: T) | Err(error: string)

  datatype Key = IntKey(i: int) | StrKey(s: Bytes) | BoolKey(b: bool) | OtherKey(n: nat)

  /** A Lua value as the encoder meets it: a table has contents and an order in which a traversal visits them. */
  datatype Value =
    | Nil
    | Bool(b: bool)
    | Int(i: int)                                        // a number with an integral value
    | Num(bits: nat)                                     // any other number, by its 64-bit pattern
    | Str(s: Bytes)
    | Table(visit: seq<Key>, at: map<Key, Value>)
    | Unsupported                                        // functions, threads, userdata

  /** A decoded value: what a table holds, without a traversal order. */
  datatype Plain =
    | PNil
    | PBool(b: bool)
    | PInt(i: int)
    | PNum(bits: nat)
    | PStr(s: Bytes)
    | PTable(at: map<Key, Plain>)

  datatype Config = Config(maxDepth: nat, maxString: nat, maxArray: nat, maxMap: nat)

  const TWO32: int := 0x1_0000_0000
  const TWO53: int := 0x20_0000_0000_0000
  const TWO63: int := 0x8000_0000_0000_0000
  const TWO64: int := 0x1_0000_0000_0000_0000

  const NIL: byte := 0x00
  const FALSE: byte := 0x01
  const TRUE: byte := 0x02
  const INTEGER: byte := 0x03
  const NUMBER: byte := 0x04
  const SHORT_STRING: byte := 0x05
  const STRING: byte := 0x06
  const ARRAY: byte := 0x07
  const MAP: byte := 0x08

  const MAGIC_HIGH: byte := 0x4C
  const MAGIC_LOW: byte := 0x50
  const VERSION: byte := 1

  /** Values the format can carry exactly: integers a double holds, sizes that fit 32 bits, no nil in a table. */
  ghost predicate Representable(v: Value) {
    match v
    case Int(i) => -TWO53 <= i <= TWO53
    case Num(bits) => bits < TWO64
    case Str(s) => |s| + 5 < TWO32
    case Table(visit, at) =>
      && |visit| < TWO32
      && Distinct(visit)
      && (forall k :: k in visit <==> k in at)
      && (forall k :: k in at ==> KeyFits(k) && at[k] != Nil && Representable(at[k]))
    case Unsupported => false
    case _ => true
  }

  predicate KeyFits(k: Key) {
    match k
    case IntKey(i) => -0x8000_0000 <= i < 0x8000_0000
    case StrKey(s) => |s| + 5 < TWO32
    case _ => true
  }

  ghost function Meaning(v: Value): Plain {
    match v
    case Bool(b) => PBool(b)
    case Int(i) => PInt(i)
    case Num(bits) => PNum(bits)
    case Str(s) => PStr(s)
    case Table(visit, at) => PTable(map k | k in at :: Meaning(at[k]))
    case _ => PNil
  }

  // ---------------------------------------------------------------------
  // Little-endian integers
  // ---------------------------------------------------------------------

  /** The n low bytes of a two's complement integer, lowest first. */
  function LittleEndian(v: int, n: nat): (r: Bytes)
    ensures |r| == n
    decreases n
  {
    if n == 0 then [] else [v % 256] + LittleEndian(v / 256, n - 1)
  }

  function FromLittleEndian(s: Bytes): nat {
    if s == [] then 0 else s[0] + 256 * FromLittleEndian(s[1..])
  }

  function Pow256(n: nat): (p: nat)
    ensures p > 0
  {
    if n == 0 then 1 else 256 * Pow256(n - 1)
  }

  lemma {:induction false} LittleEndianInverse(v: int, n: nat)
    ensures FromLittleEndian(LittleEndian(v, n)) == v % Pow256(n)
    decreases n
  {
    if n > 0 {
      LittleEndianInverse(v / 256, n - 1);
      ModSplit(v, Pow256(n - 1));
    }
  }

  lemma ModSplit(v: int, p: nat)
    requires p > 0
    ensures v % (256 * p) == v % 256 + 256 * ((v / 256) % p)
  {
    var q, r := v / 256 / p, (v / 256) % p;
    assert v / 256 == q * p + r;
    assert v == 256 * (q * p + r) + v % 256;
    assert v == q * (256 * p) + (256 * r + v % 256);
    DivModUnique(v, 256 * p, q, 256 * r + v % 256);
  }

  function Signed(u: nat): int {
    if u >= TWO63 then u - TWO64 else u
  }

  lemma Read32(n: nat)
    requires n < TWO32
    ensures FromLittleEndian(LittleEndian(n, 4)) == n
  {
    LittleEndianInverse(n, 4);
    assert Pow256(4) == TWO32 by {
      assert Pow256(1) == 256 && Pow256(2) == 0x1_0000 && Pow256(3) == 0x100_0000;
    }
  }

  lemma Pow256Of8()
    ensures Pow256(8) == TWO64
  {
    assert Pow256(1) == 256 && Pow256(2) == 0x1_0000 && Pow256(3) == 0x100_0000 && Pow256(4) == TWO32;
    assert Pow256(5) == 0x100_0000_0000 && Pow256(6) == 0x1_0000_0000_0000;
    assert Pow256(7) == 0x100_0000_0000_0000;
  }

  lemma Read64(i: int)
    requires -TWO63 <= i < TWO63
    ensures Signed(FromLittleEndian(LittleEndian(i, 8))) == i
  {
    hide LittleEndian, FromLittleEndian, Pow256;
    LittleEndianInverse(i, 8);
    Pow256Of8();
    Wraps(i);
  }

  lemma Wraps(i: int)
    requires -TWO63 <= i < TWO63
    ensures i % TWO64 == if i < 0 then i + TWO64 else i
  {
  }

  lemma ReadBits(bits: nat)
    requires bits < TWO64
    ensures FromLittleEndian(LittleEndian(bits, 8)) == bits
  {
    LittleEndianInverse(bits, 8);
    Pow256Of8();
  }

  // ---------------------------------------------------------------------
  // Encoder
  // ---------------------------------------------------------------------

  function EncodeStr(c: Config, s: Bytes): Result<Bytes> {
    if |s| >= 256 then
      if |s| > c.maxString then Err("string too long") else Ok([STRING] + LittleEndian(|s|, 4) + s)
    else Ok([SHORT_STRING, |s|] + s)
  }

  function EncodeKey(c: Config, k: Key, depth: nat): Result<Bytes> {
    if k.OtherKey? || k.BoolKey? then Err("map keys must be string or integer")
    else if depth > c.maxDepth then Err("max nesting depth exceeded")
    else match k
      case IntKey(i) => Ok([INTEGER] + LittleEndian(i, 8))
      case StrKey(s) => EncodeStr(c, s)
  }

  predicate PositiveInt(k: Key) {
    k.IntKey? && k.i > 0
  }

  /** How many entries the scan counts: it stops at the first key that is not a positive integer. */
  function ScanCount(visit: seq<Key>): (n: nat)
    ensures n <= |visit|
  {
    if visit == [] then 0 else if !PositiveInt(visit[0]) then 1 else 1 + ScanCount(visit[1..])
  }

  function MaxIndex(visit: seq<Key>): nat {
    if visit == [] then 0
    else
      var rest := MaxIndex(visit[1..]);
      if PositiveInt(visit[0]) && visit[0].i > rest then visit[0].i else rest
  }

  predicate ArrayLike(visit: seq<Key>) {
    && (forall i :: 0 <= i < |visit| ==> PositiveInt(visit[i]))
    && MaxIndex(visit) == |visit|
  }

  function Join(a: Result<Bytes>, b: Result<Bytes>): Result<Bytes> {
    if a.Err? then a else if b.Err? then b else Ok(a.value + b.value)
  }

  function Encode(c: Config, v: Value, depth: nat): Result<Bytes>
    decreases v, 1, 0
  {
    if depth > c.maxDepth then Err("max nesting depth exceeded")
    else match v
      case Nil => Ok([NIL])
      case Bool(b) => Ok([if b then TRUE else FALSE])
      case Int(i) => Ok([INTEGER] + LittleEndian(i, 8))
      case Num(bits) => Ok([NUMBER] + LittleEndian(bits, 8))
      case Str(s) => EncodeStr(c, s)
      case Table(visit, at) =>
        if ArrayLike(visit) && |visit| <= c.maxArray then
          Join(Ok([ARRAY] + LittleEndian(|visit|, 4)), EncodeItems(c, v, 1, depth))
        else if ScanCount(visit) > c.maxMap then Err("map has too many entries")
        else Join(Ok([MAP] + LittleEndian(ScanCount(visit), 4)), EncodeEntries(c, v, 0, depth))
      case Unsupported => Err("unsupported type for LuaPack encoding")
  }

  /** Elements i, i + 1, ... of an array-like table. */
  function EncodeItems(c: Config, v: Value, i: nat, depth: nat): Result<Bytes>
    requires v.Table?
    decreases v, 0, |v.visit| + 1 - i
  {
    if i > |v.visit| then Ok([])
    else Join(if IntKey(i) in v.at then Encode(c, v.at[IntKey(i)], depth + 1) else EncodeNil(c, depth + 1),
              EncodeItems(c, v, i + 1, depth))
  }

  function EncodeNil(c: Config, depth: nat): Result<Bytes> {
    if depth > c.maxDepth then Err("max nesting depth exceeded") else Ok([NIL])
  }

  /** The entries from visiting position j on, each key followed by its value. */
  function EncodeEntries(c: Config, v: Value, j: nat, depth: nat): Result<Bytes>
    requires v.Table?
    decreases v, 0, |v.visit| - j
  {
    if j >= |v.visit| then Ok([])
    else
      var k := v.visit[j];
      Join(Join(EncodeKey(c, k, depth + 1),
                if k in v.at then Encode(c, v.at[k], depth + 1) else EncodeNil(c, depth + 1)),
           EncodeEntries(c, v, j + 1, depth))
  }

  // ---------------------------------------------------------------------
  // Decoder
  // ---------------------------------------------------------------------

  datatype Decoded<T> = Decoded(value: T, consumed: nat)

  function Put(m: map<Key, Plain>, k: Key, w: Plain): map<Key, Plain> {
    if w == PNil then m - {k} else m[k := w]
  }

  function Decode(data: Bytes): (r: Result<Decoded<Plain>>)
    ensures r.Ok? ==> 1 <= r.value.consumed <= |data|
    decreases |data|, 0
  {
    if data == [] then Err("unexpected end of data")
    else
      var tag := data[0];
      if tag == NIL then Ok(Decoded(PNil, 1))
      else if tag == FALSE then Ok(Decoded(PBool(false), 1))
      else if tag == TRUE then Ok(Decoded(PBool(true), 1))
      else if tag == INTEGER then
        if |data| < 9 then Err("truncated integer")
        else Ok(Decoded(PInt(Signed(FromLittleEndian(data[1..9]))), 9))
      else if tag == NUMBER then
        if |data| < 9 then Err("truncated number")
        else Ok(Decoded(PNum(FromLittleEndian(data[1..9])), 9))
      else if tag == SHORT_STRING then
        if |data| < 2 then Err("truncated short string")
        else
          var n: int := data[1];
          if |data| < 2 + n then Err("truncated short string data")
          else Ok(Decoded(PStr(data[2..2 + n]), 2 + n))
      else if tag == STRING then
        if |data| < 5 then Err("truncated string length")
        else
          var n := FromLittleEndian(data[1..5]);
          if |data| < 5 + n then Err("truncated string data")
          else Ok(Decoded(PStr(data[5..5 + n]), 5 + n))
      else if tag == ARRAY then
        if |data| < 5 then Err("truncated array length")
        else
          var items := DecodeItems(data[5..], FromLittleEndian(data[1..5]), 1, map[]);
          if items.Err? then Err(items.error)
          else Ok(Decoded(PTable(items.value.value), 5 + items.value.consumed))
      else if tag == MAP then
        if |data| < 5 then Err("truncated map count")
        else
          var entries := DecodeEntries(data[5..], FromLittleEndian(data[1..5]), map[]);
          if entries.Err? then Err(entries.error)
          else Ok(Decoded(PTable(entries.value.value), 5 + entries.value.consumed))
      else Err("unknown type tag")
  }

  /** `count` values, stored under the integer keys from `index` on. */
  function DecodeItems(data: Bytes, count: nat, index: nat, m: map<Key, Plain>): (r: Result<Decoded<map<Key, Plain>>>)
    ensures r.Ok? ==> r.value.consumed <= |data|
    decreases |data|, 1
  {
    if count == 0 then Ok(Decoded(m, 0))
    else
      var item := Decode(data);
      if item.Err? then Err(item.error)
      else
        var n := item.value.consumed;
        var rest := DecodeItems(data[n..], count - 1, index + 1, Put(m, IntKey(index), item.value.value));
        if rest.Err? then rest else Ok(Decoded(rest.value.value, n + rest.value.consumed))
  }

  function KeyOf(w: Plain): Result<Key> {
    match w
    case PInt(i) => Ok(IntKey(i))
    case PStr(s) => Ok(StrKey(s))
    case PBool(b) => Ok(BoolKey(b))
    case _ => Err("key is nil, a fraction or a table")
  }

  datatype Entry = Entry(key: Key, val: Plain)

  function DecodePair(data: Bytes): (r: Result<Decoded<Entry>>)
    ensures r.Ok? ==> 1 <= r.value.consumed <= |data|
    decreases |data|, 1
  {
    var key := Decode(data);
    if key.Err? then Err(key.error)
    else
      var k := KeyOf(key.value.value);
      var n := key.value.consumed;
      if k.Err? then Err(k.error)
      else
        var val := Decode(data[n..]);
        if val.Err? then Err(val.error) else Ok(Decoded(Entry(k.value, val.value.value), n + val.value.consumed))
  }

  /** `count` pairs of a key and a value. */
  function DecodeEntries(data: Bytes, count: nat, m: map<Key, Plain>): (r: Result<Decoded<map<Key, Plain>>>)
    ensures r.Ok? ==> r.value.consumed <= |data|
    decreases |data|, 2
  {
    if count == 0 then Ok(Decoded(m, 0))
    else
      var pair := DecodePair(data);
      if pair.Err? then Err(pair.error)
      else
        var n := pair.value.consumed;
        var rest := DecodeEntries(data[n..], count - 1, Put(m, pair.value.value.key, pair.value.value.val));
        if rest.Err? then rest else Ok(Decoded(rest.value.value, n + rest.value.consumed))
  }

  // ---------------------------------------------------------------------
  // Scalars and headers
  // ---------------------------------------------------------------------

  lemma DecodeInt(i: int, suffix: Bytes)
    requires -TWO63 <= i < TWO63
    ensures Decode([INTEGER] + LittleEndian(i, 8) + suffix) == Ok(Decoded(PInt(i), 9))
  {
    var data := [INTEGER] + LittleEndian(i, 8) + suffix;
    assert data[1..9] == LittleEndian(i, 8);
    Read64(i);
  }

  lemma DecodeNum(bits: nat, suffix: Bytes)
    requires bits < TWO64
    ensures Decode([NUMBER] + LittleEndian(bits, 8) + suffix) == Ok(Decoded(PNum(bits), 9))
  {
    var data := [NUMBER] + LittleEndian(bits, 8) + suffix;
    assert data[1..9] == LittleEndian(bits, 8);
    ReadBits(bits);
  }

  lemma DecodeStr(c: Config, s: Bytes, suffix: Bytes)
    requires |s| + 5 < TWO32 && EncodeStr(c, s).Ok?
    ensures Decode(EncodeStr(c, s).value + suffix) == Ok(Decoded(PStr(s), |EncodeStr(c, s).value|))
  {
    var data := EncodeStr(c, s).value + suffix;
    if |s| >= 256 {
      assert data[1..5] == LittleEndian(|s|, 4);
      Read32(|s|);
      assert data[5..5 + |s|] == s;
    } else {
      assert data[2..2 + |s|] == s;
    }
  }

  lemma DecodeKey(c: Config, k: Key, depth: nat, suffix: Bytes)
    requires KeyFits(k) && EncodeKey(c, k, depth).Ok?
    ensures Decode(EncodeKey(c, k, depth).value + suffix).Ok?
    ensures KeyOf(Decode(EncodeKey(c, k, depth).value + suffix).value.value) == Ok(k)
    ensures Decode(EncodeKey(c, k, depth).value + suffix).value.consumed == |EncodeKey(c, k, depth).value|
  {
    match k {
      case IntKey(i) => DecodeInt(i, suffix);
      case StrKey(s) => DecodeStr(c, s, suffix);
    }
  }

  lemma DecodeHeader(tag: byte, n: nat, body: Bytes)
    requires n < TWO32 && (tag == ARRAY || tag == MAP)
    ensures Decode([tag] + LittleEndian(n, 4) + body) ==
            Headed(if tag == ARRAY then DecodeItems(body, n, 1, map[]) else DecodeEntries(body, n, map[]))
  {
    var data := [tag] + LittleEndian(n, 4) + body;
    assert data[1..5] == LittleEndian(n, 4) && data[5..] == body;
    Read32(n);
  }

  function Headed(r: Result<Decoded<map<Key, Plain>>>): Result<Decoded<Plain>> {
    if r.Err? then Err(r.error) else Ok(Decoded(PTable(r.value.value), 5 + r.value.consumed))
  }

  // ---------------------------------------------------------------------
  // Round trip
  // ---------------------------------------------------------------------

  /** In every table of the value, the scan gets as far as the last entry. */
  ghost predicate Complete(v: Value) {
    v.Table? ==> ScanCount(v.visit) == |v.visit| && forall k :: k in v.at ==> Complete(v.at[k])
  }

  lemma {:induction false} MaxIndexBounds(visit: seq<Key>)
    ensures forall x :: 0 <= x < |visit| && PositiveInt(visit[x]) ==> visit[x].i <= MaxIndex(visit)
  {
    if visit != [] {
      MaxIndexBounds(visit[1..]);
      assert forall x :: 1 <= x < |visit| ==> visit[x] == visit[1..][x - 1];
    }
  }

  /** An array-like table has exactly the keys 1, ..., n. */
  lemma ArrayKeys(v: Value, i: nat)
    requires v.Table? && Representable(v) && ArrayLike(v.visit) && 1 <= i <= |v.visit|
    ensures IntKey(i) in v.at
  {
    var f := map x | x in Interval(0, |v.visit|) :: v.visit[x].i;
    InjectiveSize(f);
    MaxIndexBounds(v.visit);
    forall y | y in f.Values ensures y in Interval(1, |v.visit| + 1) {
      var x :| x in f && f[x] == y;
      assert PositiveInt(v.visit[x]);
    }
    assert f.Keys == Interval(0, |v.visit|);
    SubsetIsSmaller(f.Values, Interval(1, |v.visit| + 1));
    assert i in f.Values;
    var x :| x in f && f[x] == i;
    assert v.visit[x] == IntKey(i);
  }

  lemma {:induction false} ArrayScanIsComplete(visit: seq<Key>)
    requires forall i :: 0 <= i < |visit| ==> PositiveInt(visit[i])
    ensures ScanCount(visit) == |visit|
  {
    if visit != [] {
      ArrayScanIsComplete(visit[1..]);
    }
  }

  /** What the decoder has stored after the elements from i on. */
  ghost function ItemsInto(v: Value, i: nat, m: map<Key, Plain>): map<Key, Plain>
    requires v.Table?
    decreases |v.visit| + 1 - i
  {
    if i > |v.visit| then m
    else ItemsInto(v, i + 1, Put(m, IntKey(i), if IntKey(i) in v.at then Meaning(v.at[IntKey(i)]) else PNil))
  }

  /** What the decoder has stored after `count` entries from position j on. */
  ghost function EntriesInto(v: Value, j: nat, count: nat, m: map<Key, Plain>): map<Key, Plain>
    requires v.Table? && j + count <= |v.visit|
    decreases count
  {
    if count == 0 then m
    else
      var k := v.visit[j];
      EntriesInto(v, j + 1, count - 1, Put(m, k, if k in v.at then Meaning(v.at[k]) else PNil))
  }

  lemma MeaningNotNil(v: Value)
    requires Representable(v) && v != Nil
    ensures Meaning(v) != PNil
  {
  }

  predicate InRange(k: Key, i: int, n: int) {
    k.IntKey? && i <= k.i <= n
  }

  lemma {:induction false} ItemsIntoSpec(v: Value, i: nat, m: map<Key, Plain>, k: Key)
    requires v.Table? && Representable(v) && ArrayLike(v.visit) && 1 <= i <= |v.visit| + 1
    ensures k in ItemsInto(v, i, m) <==> k in m || InRange(k, i, |v.visit|)
    ensures InRange(k, i, |v.visit|) ==> k in v.at && ItemsInto(v, i, m)[k] == Meaning(v.at[k])
    ensures k in m && !InRange(k, i, |v.visit|) ==> ItemsInto(v, i, m)[k] == m[k]
    decreases |v.visit| + 1 - i
  {
    if i <= |v.visit| {
      ArrayKeys(v, i);
      MeaningNotNil(v.at[IntKey(i)]);
      ItemsIntoSpec(v, i + 1, Put(m, IntKey(i), Meaning(v.at[IntKey(i)])), k);
    }
  }

  lemma AllItems(v: Value)
    requires v.Table? && Representable(v) && ArrayLike(v.visit)
    ensures PTable(ItemsInto(v, 1, map[])) == Meaning(v)
  {
    MaxIndexBounds(v.visit);
    forall k ensures k in ItemsInto(v, 1, map[]) <==> k in v.at
      ensures k in v.at ==> ItemsInto(v, 1, map[])[k] == Meaning(v.at[k])
    {
      ItemsIntoSpec(v, 1, map[], k);
      if k in v.at {
        assert k in v.visit;
        var x :| 0 <= x < |v.visit| && v.visit[x] == k;
        assert PositiveInt(v.visit[x]) && InRange(k, 1, |v.visit|);
      }
    }
  }

  lemma {:induction false} EntriesIntoSpec(v: Value, j: nat, m: map<Key, Plain>, k: Key)
    requires v.Table? && Representable(v) && j <= |v.visit|
    ensures k in EntriesInto(v, j, |v.visit| - j, m) <==> k in m || k in v.visit[j..]
    ensures k in v.visit[j..] ==> k in v.at && EntriesInto(v, j, |v.visit| - j, m)[k] == Meaning(v.at[k])
    ensures k in m && k !in v.visit[j..] ==> EntriesInto(v, j, |v.visit| - j, m)[k] == m[k]
    decreases |v.visit| - j
  {
    hide Meaning, Representable;
    if j < |v.visit| {
      var key := v.visit[j];
      VisitedIsPresent(v, j);
      VisitedOnce(v, j);
      MeaningNotNil(v.at[key]);
      EntriesIntoSpec(v, j + 1, Put(m, key, Meaning(v.at[key])), k);
    }
  }

  lemma VisitedOnce(v: Value, j: nat)
    requires v.Table? && Representable(v) && j < |v.visit|
    ensures v.visit[j..] == [v.visit[j]] + v.visit[j + 1..] && v.visit[j] !in v.visit[j + 1..]
  {
  }

  lemma AllEntries(v: Value)
    requires v.Table? && Representable(v)
    ensures PTable(EntriesInto(v, 0, |v.visit|, map[])) == Meaning(v)
  {
    hide EntriesInto;
    hide Representable;
    var m := EntriesInto(v, 0, |v.visit|, map[]);
    forall k ensures k in m <==> k in v.at
      ensures k in v.at ==> m[k] == Meaning(v.at[k])
    {
      OneEntry(v, k);
    }
  }

  lemma OneEntry(v: Value, k: Key)
    requires v.Table? && Representable(v)
    ensures k in EntriesInto(v, 0, |v.visit|, map[]) <==> k in v.at
    ensures k in v.at ==> EntriesInto(v, 0, |v.visit|, map[])[k] == Meaning(v.at[k])
  {
    hide EntriesInto;
    hide Meaning;
    assert v.visit[0..] == v.visit;
    EntriesIntoSpec(v, 0, map[], k);
  }

  function Shift(n: nat, r: Result<Decoded<map<Key, Plain>>>): Result<Decoded<map<Key, Plain>>> {
    if r.Err? then r else Ok(Decoded(r.value.value, n + r.value.consumed))
  }

  lemma DecodeItemsStep(first: Bytes, rest: Bytes, w: Plain, count: nat, index: nat, m: map<Key, Plain>)
    requires count > 0 && Decode(first + rest) == Ok(Decoded(w, |first|))
    ensures DecodeItems(first + rest, count, index, m) ==
            Shift(|first|, DecodeItems(rest, count - 1, index + 1, Put(m, IntKey(index), w)))
  {
    hide Decode;
    assert (first + rest)[|first|..] == rest;
  }

  lemma DecodeEntriesStep(key: Bytes, val: Bytes, rest: Bytes, k: Key, w: Plain, count: nat, m: map<Key, Plain>)
    requires count > 0
    requires Decode(key + (val + rest)).Ok? && KeyOf(Decode(key + (val + rest)).value.value) == Ok(k)
    requires Decode(key + (val + rest)).value.consumed == |key|
    requires Decode(val + rest) == Ok(Decoded(w, |val|))
    ensures DecodeEntries(key + (val + rest), count, m) ==
            Shift(|key| + |val|, DecodeEntries(rest, count - 1, Put(m, k, w)))
  {
    hide Decode;
    var data := key + (val + rest);
    assert data[|key|..] == val + rest;
    assert data[|key| + |val|..] == rest;
  }

  predicate IsArray(c: Config, v: Value)
    requires v.Table?
  {
    ArrayLike(v.visit) && |v.visit| <= c.maxArray
  }

  /** The count the encoder writes in a table's header. */
  function WrittenCount(c: Config, v: Value): nat
    requires v.Table?
  {
    if IsArray(c, v) then |v.visit| else ScanCount(v.visit)
  }

  function Body(c: Config, v: Value, depth: nat): Result<Bytes>
    requires v.Table?
  {
    if IsArray(c, v) then EncodeItems(c, v, 1, depth) else EncodeEntries(c, v, 0, depth)
  }

  /** Decoding an encoded table is decoding its body after the header. */
  lemma DecodeTable(c: Config, v: Value, depth: nat, suffix: Bytes)
    requires v.Table? && |v.visit| < TWO32 && Encode(c, v, depth).Ok?
    ensures Body(c, v, depth).Ok? && |Encode(c, v, depth).value| == 5 + |Body(c, v, depth).value|
    ensures Decode(Encode(c, v, depth).value + suffix) ==
            Headed(if IsArray(c, v) then DecodeItems(Body(c, v, depth).value + suffix, |v.visit|, 1, map[])
                   else DecodeEntries(Body(c, v, depth).value + suffix, ScanCount(v.visit), map[]))
  {
    hide Decode;
    hide DecodeItems;
    hide DecodeEntries;
    hide EncodeItems;
    hide EncodeEntries;
    hide LittleEndian;
    var tag, n, body := if IsArray(c, v) then ARRAY else MAP, WrittenCount(c, v), Body(c, v, depth).value;
    assert Encode(c, v, depth).value == [tag] + LittleEndian(n, 4) + body;
    assert [tag] + LittleEndian(n, 4) + body + suffix == [tag] + LittleEndian(n, 4) + (body + suffix);
    DecodeHeader(tag, n, body + suffix);
  }

  lemma ScalarRoundTrip(c: Config, v: Value, depth: nat, suffix: Bytes)
    requires Representable(v) && !v.Table? && Encode(c, v, depth).Ok?
    ensures Decode(Encode(c, v, depth).value + suffix) == Ok(Decoded(Meaning(v), |Encode(c, v, depth).value|))
  {
    match v {
      case Nil =>
      case Bool(b) =>
      case Int(i) => DecodeInt(i, suffix);
      case Num(bits) => DecodeNum(bits, suffix);
      case Str(s) => DecodeStr(c, s, suffix);
    }
  }

  lemma TableFacts(c: Config, v: Value, depth: nat)
    requires v.Table? && Representable(v) && Complete(v) && Encode(c, v, depth).Ok?
    ensures |v.visit| < TWO32 && ScanCount(v.visit) == |v.visit|
    ensures IsArray(c, v) ==> ArrayLike(v.visit) && EncodeItems(c, v, 1, depth).Ok?
    ensures !IsArray(c, v) ==> EncodeEntries(c, v, 0, depth).Ok?
  {
    hide EncodeItems;
    hide EncodeEntries;
  }

  lemma ArrayDone(c: Config, v: Value, depth: nat, suffix: Bytes, m: map<Key, Plain>)
    requires v.Table? && |v.visit| < TWO32 && Encode(c, v, depth).Ok? && IsArray(c, v)
    requires EncodeItems(c, v, 1, depth).Ok?
    requires DecodeItems(EncodeItems(c, v, 1, depth).value + suffix, |v.visit|, 1, map[]) ==
             Ok(Decoded(m, |EncodeItems(c, v, 1, depth).value|))
    ensures Decode(Encode(c, v, depth).value + suffix) == Ok(Decoded(PTable(m), |Encode(c, v, depth).value|))
  {
    hide Decode;
    hide Encode;
    hide EncodeItems;
    hide DecodeItems;
    DecodeTable(c, v, depth, suffix);
  }

  lemma MapDone(c: Config, v: Value, depth: nat, suffix: Bytes, m: map<Key, Plain>)
    requires v.Table? && |v.visit| < TWO32 && Encode(c, v, depth).Ok? && !IsArray(c, v)
    requires ScanCount(v.visit) == |v.visit| && EncodeEntries(c, v, 0, depth).Ok?
    requires DecodeEntries(EncodeEntries(c, v, 0, depth).value + suffix, |v.visit|, map[]) ==
             Ok(Decoded(m, |EncodeEntries(c, v, 0, depth).value|))
    ensures Decode(Encode(c, v, depth).value + suffix) == Ok(Decoded(PTable(m), |Encode(c, v, depth).value|))
  {
    hide Decode;
    hide Encode;
    hide EncodeEntries;
    hide DecodeEntries;
    DecodeTable(c, v, depth, suffix);
  }

  /** Decoding what was encoded, with anything after it, gives the value back and stops where it ends. */
  lemma {:induction false} RoundTrip(c: Config, v: Value, depth: nat, suffix: Bytes)
    requires Representable(v) && Complete(v) && Encode(c, v, depth).Ok?
    ensures Decode(Encode(c, v, depth).value + suffix) == Ok(Decoded(Meaning(v), |Encode(c, v, depth).value|))
    decreases v, 1, 0
  {
    hide *;
    if !v.Table? {
      ScalarRoundTrip(c, v, depth, suffix);
    } else {
      TableFacts(c, v, depth);
      if IsArray(c, v) {
        ItemsRoundTrip(c, v, 1, depth, suffix, map[]);
        AllItems(v);
        ArrayDone(c, v, depth, suffix, ItemsInto(v, 1, map[]));
      } else {
        EntriesRoundTrip(c, v, 0, depth, suffix, map[]);
        AllEntries(v);
        MapDone(c, v, depth, suffix, EntriesInto(v, 0, |v.visit|, map[]));
      }
    }
  }

  lemma ItemsIntoStep(v: Value, i: nat, m: map<Key, Plain>)
    requires v.Table? && i <= |v.visit| && IntKey(i) in v.at
    ensures ItemsInto(v, i, m) == ItemsInto(v, i + 1, Put(m, IntKey(i), Meaning(v.at[IntKey(i)])))
  {
  }

  lemma ItemsBase(c: Config, v: Value, depth: nat, suffix: Bytes, m: map<Key, Plain>)
    requires v.Table?
    ensures EncodeItems(c, v, |v.visit| + 1, depth) == Ok([])
    ensures DecodeItems([] + suffix, 0, |v.visit| + 1, m) == Ok(Decoded(m, 0)) && ItemsInto(v, |v.visit| + 1, m) == m
  {
  }

  lemma {:induction false} ItemsRoundTrip(c: Config, v: Value, i: nat, depth: nat, suffix: Bytes, m: map<Key, Plain>)
    requires v.Table? && Representable(v) && Complete(v) && ArrayLike(v.visit)
    requires 1 <= i <= |v.visit| + 1 && EncodeItems(c, v, i, depth).Ok?
    ensures DecodeItems(EncodeItems(c, v, i, depth).value + suffix, |v.visit| + 1 - i, i, m) ==
            Ok(Decoded(ItemsInto(v, i, m), |EncodeItems(c, v, i, depth).value|))
    decreases v, 0, |v.visit| + 1 - i
  {
    hide *;
    if i == |v.visit| + 1 {
      ItemsBase(c, v, depth, suffix, m);
    } else {
      ItemIsRepresentable(v, i);
      EncodeItemsSplit(c, v, i, depth);
      var item := v.at[IntKey(i)];
      var first, rest := Encode(c, item, depth + 1).value, EncodeItems(c, v, i + 1, depth).value;
      RoundTrip(c, item, depth + 1, rest + suffix);
      assert first + rest + suffix == first + (rest + suffix);
      DecodeItemsStep(first, rest + suffix, Meaning(item), |v.visit| + 1 - i, i, m);
      ItemsRoundTrip(c, v, i + 1, depth, suffix, Put(m, IntKey(i), Meaning(item)));
      ItemsIntoStep(v, i, m);
      ShiftOk(|first|, ItemsInto(v, i, m), |rest|);
    }
  }

  lemma EncodeEntriesSplit(c: Config, v: Value, j: nat, depth: nat)
    requires v.Table? && j < |v.visit| && v.visit[j] in v.at && EncodeEntries(c, v, j, depth).Ok?
    ensures EncodeKey(c, v.visit[j], depth + 1).Ok? && Encode(c, v.at[v.visit[j]], depth + 1).Ok?
    ensures EncodeEntries(c, v, j + 1, depth).Ok?
    ensures EncodeEntries(c, v, j, depth).value ==
            EncodeKey(c, v.visit[j], depth + 1).value +
            (Encode(c, v.at[v.visit[j]], depth + 1).value + EncodeEntries(c, v, j + 1, depth).value)
  {
    hide Encode;
    hide EncodeKey;
  }

  /** A visited key is present, fits the format and has a representable value. */
  lemma VisitedIsPresent(v: Value, j: nat)
    requires v.Table? && Representable(v) && j < |v.visit|
    ensures v.visit[j] in v.at && KeyFits(v.visit[j])
    ensures v.at[v.visit[j]] != Nil && Representable(v.at[v.visit[j]])
    ensures Complete(v) ==> Complete(v.at[v.visit[j]])
  {
    assert v.visit[j] in v.visit;
  }

  lemma EntriesIntoStep(v: Value, j: nat, count: nat, m: map<Key, Plain>)
    requires v.Table? && count > 0 && j + count <= |v.visit| && v.visit[j] in v.at
    ensures EntriesInto(v, j, count, m) ==
            EntriesInto(v, j + 1, count - 1, Put(m, v.visit[j], Meaning(v.at[v.visit[j]])))
  {
  }

  lemma EntriesBase(c: Config, v: Value, depth: nat, suffix: Bytes, m: map<Key, Plain>)
    requires v.Table?
    ensures EncodeEntries(c, v, |v.visit|, depth) == Ok([])
    ensures DecodeEntries([] + suffix, 0, m) == Ok(Decoded(m, 0)) && EntriesInto(v, |v.visit|, 0, m) == m
  {
  }

  lemma {:induction false} EntriesRoundTrip(c: Config, v: Value, j: nat, depth: nat, suffix: Bytes, m: map<Key, Plain>)
    requires v.Table? && Representable(v) && Complete(v)
    requires j <= |v.visit| && EncodeEntries(c, v, j, depth).Ok?
    ensures DecodeEntries(EncodeEntries(c, v, j, depth).value + suffix, |v.visit| - j, m) ==
            Ok(Decoded(EntriesInto(v, j, |v.visit| - j, m), |EncodeEntries(c, v, j, depth).value|))
    decreases v, 0, |v.visit| - j
  {
    hide *;
    if j == |v.visit| {
      EntriesBase(c, v, depth, suffix, m);
    } else {
      var k := v.visit[j];
      VisitedIsPresent(v, j);
      EncodeEntriesSplit(c, v, j, depth);
      var key, val := EncodeKey(c, k, depth + 1).value, Encode(c, v.at[k], depth + 1).value;
      var rest := EncodeEntries(c, v, j + 1, depth).value;
      DecodeKey(c, k, depth + 1, val + (rest + suffix));
      RoundTrip(c, v.at[k], depth + 1, rest + suffix);
      assert key + (val + rest) + suffix == key + (val + (rest + suffix));
      DecodeEntriesStep(key, val, rest + suffix, k, Meaning(v.at[k]), |v.visit| - j, m);
      EntriesRoundTrip(c, v, j + 1, depth, suffix, Put(m, k, Meaning(v.at[k])));
      EntriesIntoStep(v, j, |v.visit| - j, m);
      ShiftOk(|key| + |val|, EntriesInto(v, j, |v.visit| - j, m), |rest|);
    }
  }

  lemma ShiftOk(n: nat, m: map<Key, Plain>, consumed: nat)
    ensures Shift(n, Ok(Decoded(m, consumed))) == Ok(Decoded(m, n + consumed))
  {
  }

  // ---------------------------------------------------------------------
  // Only complete values survive
  // ---------------------------------------------------------------------

  lemma ItemsUnfold(data: Bytes, count: nat, index: nat, m: map<Key, Plain>)
    requires count > 0 && DecodeItems(data, count, index, m).Ok?
    ensures Decode(data).Ok?
    ensures var d := Decode(data).value;
            && d.consumed <= |data|
            && DecodeItems(data[d.consumed..], count - 1, index + 1, Put(m, IntKey(index), d.value)).Ok?
            && DecodeItems(data, count, index, m).value.value ==
               DecodeItems(data[d.consumed..], count - 1, index + 1, Put(m, IntKey(index), d.value)).value.value
  {
    hide Decode;
  }

  lemma EntriesUnfold(data: Bytes, count: nat, m: map<Key, Plain>)
    requires count > 0 && DecodeEntries(data, count, m).Ok?
    ensures Decode(data).Ok? && KeyOf(Decode(data).value.value).Ok? && Decode(data).value.consumed <= |data|
    ensures Decode(data[Decode(data).value.consumed..]).Ok?
    ensures var k := KeyOf(Decode(data).value.value).value;
            var n := Decode(data).value.consumed;
            var d := Decode(data[n..]).value;
            && n + d.consumed <= |data|
            && DecodeEntries(data[n + d.consumed..], count - 1, Put(m, k, d.value)).Ok?
            && DecodeEntries(data, count, m).value.value ==
               DecodeEntries(data[n + d.consumed..], count - 1, Put(m, k, d.value)).value.value
  {
    hide Decode;
  }

  /** Later elements do not touch earlier keys. */
  lemma {:induction false} ItemsKeep(data: Bytes, count: nat, index: nat, m: map<Key, Plain>, k: Key)
    requires DecodeItems(data, count, index, m).Ok? && k.IntKey? && k.i < index
    ensures k in DecodeItems(data, count, index, m).value.value <==> k in m
    ensures k in m ==> DecodeItems(data, count, index, m).value.value[k] == m[k]
    decreases count
  {
    hide Decode;
    if count > 0 {
      ItemsUnfold(data, count, index, m);
      var d := Decode(data).value;
      ItemsKeep(data[d.consumed..], count - 1, index + 1, Put(m, IntKey(index), d.value), k);
    }
  }

  lemma PutSize(m: map<Key, Plain>, k: Key, w: Plain)
    ensures |Put(m, k, w)| <= |m| + 1
    ensures |Put(m, k, w)| == |m| + 1 ==> k !in m && w != PNil
  {
    if w == PNil {
      assert (m - {k}).Keys == m.Keys - {k};
    } else if k in m {
      assert m[k := w].Keys == m.Keys;
    } else {
      assert m[k := w].Keys == m.Keys + {k};
    }
  }

  ghost predicate Extends(m: map<Key, Plain>, m': map<Key, Plain>) {
    forall k :: k in m ==> k in m' && m'[k] == m[k]
  }

  /** Each entry adds at most one key; if each adds one, nothing is overwritten. */
  lemma {:induction false} EntriesGrow(data: Bytes, count: nat, m: map<Key, Plain>)
    requires DecodeEntries(data, count, m).Ok?
    ensures |DecodeEntries(data, count, m).value.value| <= |m| + count
    ensures |DecodeEntries(data, count, m).value.value| == |m| + count ==>
              Extends(m, DecodeEntries(data, count, m).value.value)
    decreases count
  {
    hide Decode;
    if count > 0 {
      EntriesUnfold(data, count, m);
      var k := KeyOf(Decode(data).value.value).value;
      var n := Decode(data).value.consumed;
      var d := Decode(data[n..]).value;
      PutSize(m, k, d.value);
      EntriesGrow(data[n + d.consumed..], count - 1, Put(m, k, d.value));
    }
  }

  lemma MeaningSize(v: Value)
    requires v.Table? && Representable(v)
    ensures |Meaning(v).at| == |v.visit|
  {
    assert Meaning(v).at.Keys == v.at.Keys;
    var f := map x | x in Interval(0, |v.visit|) :: v.visit[x];
    InjectiveSize(f);
    assert f.Keys == Interval(0, |v.visit|);
    forall k | k in v.at.Keys ensures k in f.Values {
      assert k in v.visit;
      var x :| 0 <= x < |v.visit| && v.visit[x] == k;
      assert x in f && f[x] == k;
    }
    assert f.Values == v.at.Keys;
  }

  /** Element i and all later ones are complete. */
  ghost predicate ItemsComplete(v: Value, i: nat)
    requires v.Table?
  {
    forall x :: i <= x <= |v.visit| && IntKey(x) in v.at ==> Complete(v.at[IntKey(x)])
  }

  /** The decoded map agrees with the value on element i and all later ones. */
  ghost predicate ItemsAgree(v: Value, i: nat, m: map<Key, Plain>)
    requires v.Table?
  {
    forall x :: i <= x <= |v.visit| && IntKey(x) in v.at ==>
      IntKey(x) in m && m[IntKey(x)] == Meaning(v.at[IntKey(x)])
  }

  ghost predicate EntriesComplete(v: Value, j: nat)
    requires v.Table?
  {
    forall x :: j <= x < |v.visit| && v.visit[x] in v.at ==> Complete(v.at[v.visit[x]])
  }

  ghost predicate EntriesAgree(v: Value, j: nat, m: map<Key, Plain>)
    requires v.Table?
  {
    forall x :: j <= x < |v.visit| && v.visit[x] in v.at ==>
      v.visit[x] in m && m[v.visit[x]] == Meaning(v.at[v.visit[x]])
  }

  lemma EncodeItemsSplit(c: Config, v: Value, i: nat, depth: nat)
    requires v.Table? && i <= |v.visit| && IntKey(i) in v.at && EncodeItems(c, v, i, depth).Ok?
    ensures Encode(c, v.at[IntKey(i)], depth + 1).Ok? && EncodeItems(c, v, i + 1, depth).Ok?
    ensures EncodeItems(c, v, i, depth).value ==
            Encode(c, v.at[IntKey(i)], depth + 1).value + EncodeItems(c, v, i + 1, depth).value
  {
    hide Encode;
  }

  lemma ItemIsRepresentable(v: Value, i: nat)
    requires v.Table? && Representable(v) && ArrayLike(v.visit) && 1 <= i <= |v.visit|
    ensures IntKey(i) in v.at && Representable(v.at[IntKey(i)]) && v.at[IntKey(i)] != Nil
    ensures Complete(v) ==> Complete(v.at[IntKey(i)])
  {
    ArrayKeys(v, i);
  }

  /** If an encoded value decodes to itself, then every one of its tables was scanned to the end. */
  lemma {:induction false} OnlyCompleteSurvives(c: Config, v: Value, depth: nat, suffix: Bytes)
    requires Representable(v) && Encode(c, v, depth).Ok?
    requires Decode(Encode(c, v, depth).value + suffix).Ok?
    requires Decode(Encode(c, v, depth).value + suffix).value.value == Meaning(v)
    ensures Complete(v)
    decreases v, 1, 0
  {
    hide Decode;
    hide DecodeItems;
    hide DecodeEntries;
    hide Encode;
    hide EncodeItems;
    hide EncodeEntries;
    hide Meaning;
    hide Representable;
    hide ItemsAgree;
    hide EntriesAgree;
    hide ItemsComplete;
    hide EntriesComplete;
    if v.Table? {
      TableSurvives(c, v, depth, suffix);
      var body := Body(c, v, depth).value;
      if IsArray(c, v) {
        AgreesWithMeaning(v, DecodeItems(body + suffix, |v.visit|, 1, map[]).value.value);
        ItemsSurvive(c, v, 1, depth, suffix, map[]);
        AllItemsComplete(v);
      } else {
        AgreesWithMeaning(v, DecodeEntries(body + suffix, ScanCount(v.visit), map[]).value.value);
        EntriesSurvive(c, v, 0, depth, suffix, map[]);
        AllEntriesComplete(v);
      }
    }
  }

  lemma TableSurvives(c: Config, v: Value, depth: nat, suffix: Bytes)
    requires v.Table? && Representable(v) && Encode(c, v, depth).Ok?
    requires Decode(Encode(c, v, depth).value + suffix).Ok?
    requires Decode(Encode(c, v, depth).value + suffix).value.value == Meaning(v)
    ensures Body(c, v, depth).Ok?
    ensures IsArray(c, v) ==>
              && DecodeItems(Body(c, v, depth).value + suffix, |v.visit|, 1, map[]).Ok?
              && PTable(DecodeItems(Body(c, v, depth).value + suffix, |v.visit|, 1, map[]).value.value) == Meaning(v)
    ensures !IsArray(c, v) ==>
              && ScanCount(v.visit) == |v.visit|
              && DecodeEntries(Body(c, v, depth).value + suffix, |v.visit|, map[]).Ok?
              && PTable(DecodeEntries(Body(c, v, depth).value + suffix, |v.visit|, map[]).value.value) == Meaning(v)
  {
    hide Decode;
    hide Encode;
    hide Meaning;
    hide DecodeEntries;
    hide DecodeItems;
    hide EncodeItems;
    hide EncodeEntries;
    DecodeTable(c, v, depth, suffix);
    if !IsArray(c, v) {
      EntriesGrow(Body(c, v, depth).value + suffix, ScanCount(v.visit), map[]);
      MeaningSize(v);
    }
  }

  lemma AgreesWithMeaning(v: Value, m: map<Key, Plain>)
    requires v.Table? && Representable(v) && PTable(m) == Meaning(v)
    ensures ItemsAgree(v, 1, m) && EntriesAgree(v, 0, m) && |m| == |v.visit|
  {
    MeaningSize(v);
  }

  lemma AllItemsComplete(v: Value)
    requires v.Table? && Representable(v) && ArrayLike(v.visit) && ItemsComplete(v, 1)
    ensures Complete(v)
  {
    ArrayScanIsComplete(v.visit);
    MaxIndexBounds(v.visit);
    forall k | k in v.at ensures Complete(v.at[k]) {
      assert k in v.visit;
      var x :| 0 <= x < |v.visit| && v.visit[x] == k;
      assert PositiveInt(v.visit[x]) && k == IntKey(k.i);
    }
  }

  lemma AllEntriesComplete(v: Value)
    requires v.Table? && Representable(v) && ScanCount(v.visit) == |v.visit| && EntriesComplete(v, 0)
    ensures Complete(v)
  {
    forall k | k in v.at ensures Complete(v.at[k]) {
      assert k in v.visit;
      var x :| 0 <= x < |v.visit| && v.visit[x] == k;
    }
  }

  lemma {:induction false} ItemsSurvive(c: Config, v: Value, i: nat, depth: nat, suffix: Bytes, m: map<Key, Plain>)
    requires v.Table? && Representable(v) && ArrayLike(v.visit) && 1 <= i <= |v.visit| + 1
    requires EncodeItems(c, v, i, depth).Ok?
    requires DecodeItems(EncodeItems(c, v, i, depth).value + suffix, |v.visit| + 1 - i, i, m).Ok?
    requires ItemsAgree(v, i,
               DecodeItems(EncodeItems(c, v, i, depth).value + suffix, |v.visit| + 1 - i, i, m).value.value)
    ensures ItemsComplete(v, i)
    decreases v, 0, |v.visit| + 1 - i
  {
    hide Decode;
    hide DecodeItems;
    hide Encode;
    hide EncodeItems;
    hide Representable;
    hide Complete;
    hide Meaning;
    if i <= |v.visit| {
      ItemIsRepresentable(v, i);
      EncodeItemsSplit(c, v, i, depth);
      var item := v.at[IntKey(i)];
      var first, rest := Encode(c, item, depth + 1).value, EncodeItems(c, v, i + 1, depth).value;
      var data := first + rest + suffix;
      assert data == first + (rest + suffix);
      ItemsUnfold(data, |v.visit| + 1 - i, i, m);
      var d := Decode(data).value;
      var m' := Put(m, IntKey(i), d.value);
      ItemsKeep(data[d.consumed..], |v.visit| - i, i + 1, m', IntKey(i));
      assert d.value == Meaning(item);
      OnlyCompleteSurvives(c, item, depth + 1, rest + suffix);
      RoundTrip(c, item, depth + 1, rest + suffix);
      assert data[|first|..] == rest + suffix;
      ItemsSurvive(c, v, i + 1, depth, suffix, m');
    }
  }

  /** If as many entries come out as there are pairs, the first pair is one of them, and the rest is the rest. */
  lemma FirstPair(key: Bytes, tail: Bytes, k: Key, count: nat, m: map<Key, Plain>)
    requires count > 0 && DecodeEntries(key + tail, count, m).Ok?
    requires Decode(key + tail).Ok? && KeyOf(Decode(key + tail).value.value) == Ok(k)
    requires Decode(key + tail).value.consumed == |key|
    requires |DecodeEntries(key + tail, count, m).value.value| == |m| + count
    ensures Decode(tail).Ok?
    ensures var d := Decode(tail).value;
            var m', all := Put(m, k, d.value), DecodeEntries(key + tail, count, m).value.value;
            && DecodeEntries(tail[d.consumed..], count - 1, m').Ok?
            && DecodeEntries(tail[d.consumed..], count - 1, m').value.value == all
            && |m'| == |m| + 1 && k in all && all[k] == d.value
  {
    hide Decode, DecodeEntries;
    EntriesUnfold(key + tail, count, m);
    assert (key + tail)[|key|..] == tail;
    var d := Decode(tail).value;
    assert (key + tail)[|key| + d.consumed..] == tail[d.consumed..];
    PutSize(m, k, d.value);
    EntriesGrow(tail[d.consumed..], count - 1, Put(m, k, d.value));
  }

  lemma {:induction false} EntriesSurvive(c: Config, v: Value, j: nat, depth: nat, suffix: Bytes, m: map<Key, Plain>)
    requires v.Table? && Representable(v) && j <= |v.visit| && EncodeEntries(c, v, j, depth).Ok?
    requires DecodeEntries(EncodeEntries(c, v, j, depth).value + suffix, |v.visit| - j, m).Ok?
    requires |DecodeEntries(EncodeEntries(c, v, j, depth).value + suffix, |v.visit| - j, m).value.value| ==
             |m| + (|v.visit| - j)
    requires EntriesAgree(v, j,
               DecodeEntries(EncodeEntries(c, v, j, depth).value + suffix, |v.visit| - j, m).value.value)
    ensures EntriesComplete(v, j)
    decreases v, 0, |v.visit| - j
  {
    hide Decode;
    hide DecodeEntries;
    hide Encode;
    hide EncodeKey;
    hide EncodeEntries;
    hide Representable;
    hide Complete;
    hide Meaning;
    if j < |v.visit| {
      var k := v.visit[j];
      VisitedIsPresent(v, j);
      EncodeEntriesSplit(c, v, j, depth);
      var key, val := EncodeKey(c, k, depth + 1).value, Encode(c, v.at[k], depth + 1).value;
      var rest := EncodeEntries(c, v, j + 1, depth).value;
      var tail := val + (rest + suffix);
      assert key + (val + rest) + suffix == key + tail;
      DecodeKey(c, k, depth + 1, tail);
      FirstPair(key, tail, k, |v.visit| - j, m);
      assert Decode(tail).value.value == Meaning(v.at[k]);
      OnlyCompleteSurvives(c, v.at[k], depth + 1, rest + suffix);
      RoundTrip(c, v.at[k], depth + 1, rest + suffix);
      assert tail[|val|..] == rest + suffix;
      EntriesSurvive(c, v, j + 1, depth, suffix, Put(m, k, Meaning(v.at[k])));
    }
  }

  /** The round trip holds exactly for the values whose tables are all scanned to the end. */
  lemma RoundTripExactly(c: Config, v: Value, depth: nat, suffix: Bytes)
    requires Representable(v) && Encode(c, v, depth).Ok?
    ensures Decode(Encode(c, v, depth).value + suffix) == Ok(Decoded(Meaning(v), |Encode(c, v, depth).value|))
            <==> Complete(v)
  {
    hide *;
    if Complete(v) {
      RoundTrip(c, v, depth, suffix);
    }
    if Decode(Encode(c, v, depth).value + suffix) == Ok(Decoded(Meaning(v), |Encode(c, v, depth).value|)) {
      OnlyCompleteSurvives(c, v, depth, suffix);
    }
  }

  // ---------------------------------------------------------------------
  // Whole messages
  // ---------------------------------------------------------------------

  const HEADER: Bytes := [MAGIC_HIGH, MAGIC_LOW, VERSION, 0]

  function EncodeMessage(c: Config, v: Value): Result<Bytes> {
    Join(Ok(HEADER), Encode(c, v, 0))
  }

  function DecodeMessage(bytes: Bytes): Result<Decoded<Plain>> {
    if |bytes| < 4 then Err("invalid LuaPack header: too short")
    else if bytes[0] != MAGIC_HIGH || bytes[1] != MAGIC_LOW then Err("invalid LuaPack magic bytes")
    else if bytes[2] != VERSION then Err("unsupported LuaPack version")
    else Decode(bytes[4..])
  }

  /** A whole message comes back exactly if it is complete; the reported length leaves out the header. */
  lemma MessageRoundTrip(c: Config, v: Value, suffix: Bytes)
    requires Representable(v) && EncodeMessage(c, v).Ok?
    ensures DecodeMessage(EncodeMessage(c, v).value + suffix) ==
            Ok(Decoded(Meaning(v), |EncodeMessage(c, v).value| - 4))
            <==> Complete(v)
  {
    hide Encode;
    hide Decode;
    hide Meaning;
    hide Representable;
    hide Complete;
    var message := EncodeMessage(c, v).value + suffix;
    assert message[4..] == Encode(c, v, 0).value + suffix;
    RoundTripExactly(c, v, 0, suffix);
  }

  /** A table of two or more entries whose first visited key is a string does not survive. */
  lemma NamedFieldsAreLost(c: Config, v: Value, suffix: Bytes)
    requires Representable(v) && v.Table? && |v.visit| >= 2 && v.visit[0].StrKey? && EncodeMessage(c, v).Ok?
    ensures DecodeMessage(EncodeMessage(c, v).value + suffix) !=
            Ok(Decoded(Meaning(v), |EncodeMessage(c, v).value| - 4))
  {
    assert !Complete(v);
    MessageRoundTrip(c, v, suffix);
  }

  // ---------------------------------------------------------------------
  // The loops
  // ---------------------------------------------------------------------

  method WriteLittleEndian(out: Bytes, v: int, n: nat) returns (r: Bytes)
    ensures r == out + LittleEndian(v, n)
  {
    r := out;
    var val := v;
    for i := 0 to n
      invariant r + LittleEndian(val, n - i) == out + LittleEndian(v, n)
    {
      assert r + LittleEndian(val, n - i) == (r + [val % 256]) + LittleEndian(val / 256, n - i - 1);
      r := r + [val % 256];
      val := val / 256;
    }
    assert r + LittleEndian(val, 0) == r;
  }

  lemma {:induction false} FromLittleEndianSnoc(s: Bytes, b: byte)
    ensures FromLittleEndian(s + [b]) == FromLittleEndian(s) + b * Pow256(|s|)
  {
    if s == [] {
      assert (s + [b])[1..] == [];
    } else {
      assert (s + [b])[1..] == s[1..] + [b];
      FromLittleEndianSnoc(s[1..], b);
      assert 256 * (b * Pow256(|s| - 1)) == b * (256 * Pow256(|s| - 1));
    }
  }

  lemma {:induction false} Pow256IsPow2(n: nat)
    ensures Pow256(n) == Pow2(8 * n)
  {
    if n > 0 {
      Pow256IsPow2(n - 1);
      Pow2Add(8, 8 * (n - 1));
      assert Pow2(8) == 256 by {
        Pow2Add(4, 4);
      }
    }
  }

  lemma {:induction false} LittleEndianBound(s: Bytes)
    ensures FromLittleEndian(s) < Pow256(|s|)
  {
    if s != [] {
      LittleEndianBound(s[1..]);
    }
  }

  /** The shift-and-or loop; the shifted bytes never overlap, so or-ing adds. */
  method ReadLittleEndian(data: Bytes, at: nat, n: nat) returns (val: nat)
    requires at + n <= |data|
    ensures val == FromLittleEndian(data[at..at + n])
  {
    hide Or, Pow2, Pow256, FromLittleEndian;
    val := 0;
    assert data[at..at] == [];
    NothingRead();
    for i := 0 to n
      invariant val == FromLittleEndian(data[at..at + i])
    {
      ghost var read := data[at..at + i];
      FromLittleEndianSnoc(read, data[at + i]);
      LittleEndianBound(read);
      Pow256IsPow2(i);
      OrIntoLowBits(data[at + i], 8 * i, val);
      assert data[at..at + i + 1] == read + [data[at + i]];
      val := Or(data[at + i] * Pow2(8 * i), val);
    }
  }

  lemma NothingRead()
    ensures FromLittleEndian([]) == 0
  {
  }

  lemma {:induction false} ScanCountAt(visit: seq<Key>, n: nat)
    requires n < |visit| && (forall i :: 0 <= i < n ==> PositiveInt(visit[i])) && !PositiveInt(visit[n])
    ensures ScanCount(visit) == n + 1
  {
    if n > 0 {
      ScanCountAt(visit[1..], n - 1);
    }
  }

  lemma {:induction false} MaxIndexSnoc(visit: seq<Key>, k: Key)
    ensures MaxIndex(visit + [k]) == if PositiveInt(k) && k.i > MaxIndex(visit) then k.i else MaxIndex(visit)
  {
    if visit == [] {
      assert (visit + [k])[1..] == [];
    } else {
      assert (visit + [k])[1..] == visit[1..] + [k];
      MaxIndexSnoc(visit[1..], k);
    }
  }

  /** The scan over a table's keys, which breaks off at the first key that is not a positive integer. */
  method ScanTable(visit: seq<Key>) returns (arrayLike: bool, maxIndex: nat, count: nat)
    ensures count == ScanCount(visit)
    ensures (arrayLike && maxIndex == count) == ArrayLike(visit)
    ensures ArrayLike(visit) ==> maxIndex == |visit|
  {
    arrayLike, maxIndex, count := true, 0, 0;
    while count < |visit|
      invariant count <= |visit| && arrayLike
      invariant forall i :: 0 <= i < count ==> PositiveInt(visit[i])
      invariant maxIndex == MaxIndex(visit[..count])
    {
      var key := visit[count];
      if !PositiveInt(key) {
        ScanCountAt(visit, count);
        count, arrayLike := count + 1, false;
        return;
      }
      MaxIndexSnoc(visit[..count], key);
      assert visit[..count + 1] == visit[..count] + [key];
      if key.i > maxIndex {
        maxIndex := key.i;
      }
      count := count + 1;
    }
    assert visit[..count] == visit;
    ArrayScanIsComplete(visit);
  }

  lemma JoinAssoc(a: Result<Bytes>, b: Result<Bytes>, c: Result<Bytes>)
    ensures Join(a, Join(b, c)) == Join(Join(a, b), c)
  {
    if a.Ok? && b.Ok? && c.Ok? {
      assert a.value + (b.value + c.value) == a.value + b.value + c.value;
    }
  }

  /** One encoding call: success exactly when the specification succeeds, the bytes appended to the buffer. */
  ghost predicate Appends(ok: bool, r: Bytes, out: Bytes, spec: Result<Bytes>) {
    ok == spec.Ok? && (ok ==> r == out + spec.value)
  }

  /** encode_value with its output buffer. What a failed call leaves in the buffer is not used. */
  method EncodeValue(c: Config, v: Value, out: Bytes, depth: nat) returns (ok: bool, r: Bytes)
    ensures Appends(ok, r, out, Encode(c, v, depth))
    decreases v, 1
  {
    hide EncodeItems;
    hide EncodeEntries;
    hide LittleEndian;
    if depth > c.maxDepth {
      return false, out;
    }
    match v {
      case Nil => return true, out + [NIL];
      case Bool(b) => return true, out + [if b then TRUE else FALSE];
      case Int(i) =>
        r := WriteLittleEndian(out + [INTEGER], i, 8);
        ok := true;
      case Num(bits) =>
        r := WriteLittleEndian(out + [NUMBER], bits, 8);
        ok := true;
      case Str(s) => ok, r := EncodeString(c, s, out);
      case Table(visit, at) => ok, r := EncodeTable(c, v, out, depth);
      case Unsupported => return false, out;
    }
  }

  method EncodeString(c: Config, s: Bytes, out: Bytes) returns (ok: bool, r: Bytes)
    ensures Appends(ok, r, out, EncodeStr(c, s))
  {
    hide LittleEndian;
    if |s| >= 256 {
      if |s| > c.maxString {
        return false, out;
      }
      r := WriteLittleEndian(out + [STRING], |s|, 4);
      r := r + s;
    } else {
      r := out + [SHORT_STRING, |s|] + s;
    }
    ok := true;
  }

  method EncodeTable(c: Config, v: Value, out: Bytes, depth: nat) returns (ok: bool, r: Bytes)
    requires v.Table? && depth <= c.maxDepth
    ensures Appends(ok, r, out, Encode(c, v, depth))
    decreases v, 0, 1
  {
    hide EncodeItems;
    hide EncodeEntries;
    hide LittleEndian;
    var arrayLike, maxIndex, count := ScanTable(v.visit);
    if arrayLike && maxIndex == count && maxIndex <= c.maxArray {
      r := WriteLittleEndian(out + [ARRAY], maxIndex, 4);
      ok, r := EncodeElements(c, v, r, depth);
    } else if count > c.maxMap {
      return false, out;
    } else {
      r := WriteLittleEndian(out + [MAP], count, 4);
      ok, r := EncodePairs(c, v, r, depth);
    }
  }

  method EncodeElements(c: Config, v: Value, out: Bytes, depth: nat) returns (ok: bool, r: Bytes)
    requires v.Table?
    ensures Appends(ok, r, out, EncodeItems(c, v, 1, depth))
    decreases v, 0, 0
  {
    hide Encode;
    r := out;
    for i := 1 to |v.visit| + 1
      invariant Join(Ok(out), EncodeItems(c, v, 1, depth)) == Join(Ok(r), EncodeItems(c, v, i, depth))
    {
      ghost var item := if IntKey(i) in v.at then Encode(c, v.at[IntKey(i)], depth + 1) else EncodeNil(c, depth + 1);
      assert EncodeItems(c, v, i, depth) == Join(item, EncodeItems(c, v, i + 1, depth));
      JoinAssoc(Ok(r), item, EncodeItems(c, v, i + 1, depth));
      if IntKey(i) in v.at {
        ok, r := EncodeValue(c, v.at[IntKey(i)], r, depth + 1);
      } else {
        ok, r := depth + 1 <= c.maxDepth, r + [NIL];
      }
      if !ok {
        return;
      }
    }
    ok := true;
  }

  method EncodePairs(c: Config, v: Value, out: Bytes, depth: nat) returns (ok: bool, r: Bytes)
    requires v.Table?
    ensures Appends(ok, r, out, EncodeEntries(c, v, 0, depth))
    decreases v, 0, 0
  {
    hide Encode;
    hide LittleEndian;
    r := out;
    for j := 0 to |v.visit|
      invariant Join(Ok(out), EncodeEntries(c, v, 0, depth)) == Join(Ok(r), EncodeEntries(c, v, j, depth))
    {
      var k := v.visit[j];
      ghost var key := EncodeKey(c, k, depth + 1);
      ghost var val := if k in v.at then Encode(c, v.at[k], depth + 1) else EncodeNil(c, depth + 1);
      assert EncodeEntries(c, v, j, depth) == Join(Join(key, val), EncodeEntries(c, v, j + 1, depth));
      JoinAssoc(Ok(r), Join(key, val), EncodeEntries(c, v, j + 1, depth));
      JoinAssoc(Ok(r), key, val);
      ok, r := EncodeTableKey(c, k, r, depth + 1);
      if !ok {
        return;
      }
      if k in v.at {
        ok, r := EncodeValue(c, v.at[k], r, depth + 1);
      } else {
        ok, r := depth + 1 <= c.maxDepth, r + [NIL];
      }
      if !ok {
        return;
      }
    }
    ok := true;
  }

  method EncodeTableKey(c: Config, k: Key, out: Bytes, depth: nat) returns (ok: bool, r: Bytes)
    ensures Appends(ok, r, out, EncodeKey(c, k, depth))
  {
    hide LittleEndian;
    if k.OtherKey? || k.BoolKey? || depth > c.maxDepth {
      return false, out;
    }
    match k {
      case IntKey(i) =>
        r := WriteLittleEndian(out + [INTEGER], i, 8);
        ok := true;
      case StrKey(s) => ok, r := EncodeString(c, s, out);
    }
  }

  /** decode_value at an offset into the message. */
  method DecodeValue(data: Bytes, at: nat) returns (r: Result<Decoded<Plain>>)
    requires at <= |data|
    ensures r == Decode(data[at..])
    decreases |data| - at, 0
  {
    hide DecodeItems;
    hide DecodeEntries;
    hide FromLittleEndian;
    ghost var view := data[at..];
    var size := |data| - at;
    if size == 0 {
      return Err("unexpected end of data");
    }
    var tag := data[at];
    if tag == ARRAY || tag == MAP {
      if size < 5 {
        return Err(if tag == ARRAY then "truncated array length" else "truncated map count");
      }
      var count := ReadLittleEndian(data, at + 1, 4);
      assert data[at + 1..at + 5] == view[1..5] && data[at + 5..] == view[5..];
      var body;
      if tag == ARRAY {
        body := DecodeElements(data, at + 5, count);
      } else {
        body := DecodePairs(data, at + 5, count);
      }
      r := Headed(body);
    } else {
      r := DecodeScalar(data, at);
    }
  }

  method DecodeScalar(data: Bytes, at: nat) returns (r: Result<Decoded<Plain>>)
    requires at < |data| && data[at] != ARRAY && data[at] != MAP
    ensures r == Decode(data[at..])
  {
    hide DecodeItems;
    hide DecodeEntries;
    hide FromLittleEndian;
    ghost var view := data[at..];
    var tag, size := data[at], |data| - at;
    if tag == NIL {
      r := Ok(Decoded(PNil, 1));
    } else if tag == FALSE || tag == TRUE {
      r := Ok(Decoded(PBool(tag == TRUE), 1));
    } else if tag == INTEGER || tag == NUMBER {
      if size < 9 {
        return Err(if tag == INTEGER then "truncated integer" else "truncated number");
      }
      var val := ReadLittleEndian(data, at + 1, 8);
      assert data[at + 1..at + 9] == view[1..9];
      r := Ok(Decoded(if tag == INTEGER then PInt(Signed(val)) else PNum(val), 9));
    } else if tag == SHORT_STRING {
      if size < 2 {
        return Err("truncated short string");
      }
      var n: int := data[at + 1];
      if size < 2 + n {
        return Err("truncated short string data");
      }
      assert data[at + 2..at + 2 + n] == view[2..2 + n];
      r := Ok(Decoded(PStr(data[at + 2..at + 2 + n]), 2 + n));
    } else if tag == STRING {
      if size < 5 {
        return Err("truncated string length");
      }
      var n := ReadLittleEndian(data, at + 1, 4);
      assert data[at + 1..at + 5] == view[1..5];
      if size < 5 + n {
        return Err("truncated string data");
      }
      assert data[at + 5..at + 5 + n] == view[5..5 + n];
      r := Ok(Decoded(PStr(data[at + 5..at + 5 + n]), 5 + n));
    } else {
      r := Err("unknown type tag");
    }
  }

  /** The element loop: the offset advances by what each element consumed. */
  method DecodeElements(data: Bytes, at: nat, count: nat) returns (r: Result<Decoded<map<Key, Plain>>>)
    requires at <= |data|
    ensures r == DecodeItems(data[at..], count, 1, map[])
    decreases |data| - at, 1
  {
    hide Decode;
    var m, pos := map[], at;
    for i := 0 to count
      invariant at <= pos <= |data|
      invariant DecodeItems(data[at..], count, 1, map[]) ==
                Shift(pos - at, DecodeItems(data[pos..], count - i, i + 1, m))
    {
      var item := DecodeValue(data, pos);
      if item.Err? {
        return Err(item.error);
      }
      assert data[pos..][item.value.consumed..] == data[pos + item.value.consumed..];
      m := Put(m, IntKey(i + 1), item.value.value);
      pos := pos + item.value.consumed;
    }
    r := Ok(Decoded(m, pos - at));
  }

  method DecodePairs(data: Bytes, at: nat, count: nat) returns (r: Result<Decoded<map<Key, Plain>>>)
    requires at <= |data|
    ensures r == DecodeEntries(data[at..], count, map[])
    decreases |data| - at, 2
  {
    hide DecodePair;
    var m, pos := map[], at;
    for i := 0 to count
      invariant at <= pos <= |data|
      invariant DecodeEntries(data[at..], count, map[]) ==
                Shift(pos - at, DecodeEntries(data[pos..], count - i, m))
    {
      var pair := DecodeOnePair(data, pos);
      if pair.Err? {
        return Err(pair.error);
      }
      assert data[pos..][pair.value.consumed..] == data[pos + pair.value.consumed..];
      m := Put(m, pair.value.value.key, pair.value.value.val);
      pos := pos + pair.value.consumed;
    }
    r := Ok(Decoded(m, pos - at));
  }

  method DecodeOnePair(data: Bytes, at: nat) returns (r: Result<Decoded<Entry>>)
    requires at <= |data|
    ensures r == DecodePair(data[at..])
    decreases |data| - at, 1
  {
    hide Decode;
    var key := DecodeValue(data, at);
    if key.Err? {
      return Err(key.error);
    }
    var k := KeyOf(key.value.value);
    if k.Err? {
      return Err(k.error);
    }
    var n := key.value.consumed;
    assert data[at..][n..] == data[at + n..];
    var val := DecodeValue(data, at + n);
    if val.Err? {
      return Err(val.error);
    }
    r := Ok(Decoded(Entry(k.value, val.value.value), n + val.value.consumed));
  }
}
