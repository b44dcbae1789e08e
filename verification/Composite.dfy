/** The leaderboard's composite score: several fields packed into the bits of one double. */
module Composite {
  import opened Collections
  import opened Arithmetic

  // ---------------------------------------------------------------------
  // The packing on unbounded numbers
  // ---------------------------------------------------------------------

  function Total(widths: seq<nat>): nat {
    if widths == [] then 0 else widths[0] + Total(widths[1..])
  }

  /** Fields side by side, the first one in the highest bits, each reduced to its width. */
  function Pack(widths: seq<nat>, fields: seq<nat>): nat
    requires |widths| == |fields|
  {
    if widths == [] then 0
    else (fields[0] % Pow2(widths[0])) * Pow2(Total(widths[1..])) + Pack(widths[1..], fields[1..])
  }

  function Masked(widths: seq<nat>, fields: seq<nat>): (m: seq<nat>)
    requires |widths| == |fields|
    ensures |m| == |fields|
  {
    if widths == [] then [] else [fields[0] % Pow2(widths[0])] + Masked(widths[1..], fields[1..])
  }

  /** Cut a number back into fields. */
  function Unpack(widths: seq<nat>, n: nat): (fields: seq<nat>)
    ensures |fields| == |widths|
  {
    if widths == [] then [] else [n / Pow2(Total(widths[1..])) % Pow2(widths[0])] + Unpack(widths[1..], n)
  }

  predicate LexLess(a: seq<nat>, b: seq<nat>)
    requires |a| == |b|
  {
    a != [] && (a[0] < b[0] || (a[0] == b[0] && LexLess(a[1..], b[1..])))
  }

  lemma {:induction false} PackBound(widths: seq<nat>, fields: seq<nat>)
    requires |widths| == |fields|
    ensures Pack(widths, fields) < Pow2(Total(widths))
  {
    if widths != [] {
      hide Pow2;
      PackBound(widths[1..], fields[1..]);
      var p, w := Pow2(Total(widths[1..])), Pow2(widths[0]);
      Pow2Add(widths[0], Total(widths[1..]));
      PairBound(fields[0] % w, Pack(widths[1..], fields[1..]), p, w);
    }
  }

  lemma ComparePairs(a: nat, x: nat, b: nat, y: nat, p: nat)
    requires x < p && y < p
    ensures a * p + x < b * p + y <==> a < b || (a == b && x < y)
  {
    if a < b {
      assert (a + 1) * p <= b * p;
    } else if a > b {
      assert (b + 1) * p <= a * p;
    }
  }

  /** Packed numbers compare as the field tuples do. */
  lemma {:induction false} PackOrder(widths: seq<nat>, f: seq<nat>, g: seq<nat>)
    requires |widths| == |f| == |g|
    ensures Pack(widths, f) < Pack(widths, g) <==> LexLess(Masked(widths, f), Masked(widths, g))
  {
    if widths != [] {
      PackOrder(widths[1..], f[1..], g[1..]);
      PackBound(widths[1..], f[1..]);
      PackBound(widths[1..], g[1..]);
      var p := Pow2(widths[0]);
      ComparePairs(f[0] % p, Pack(widths[1..], f[1..]), g[0] % p, Pack(widths[1..], g[1..]), Pow2(Total(widths[1..])));
      assert Masked(widths, f)[1..] == Masked(widths[1..], f[1..]);
      assert Masked(widths, g)[1..] == Masked(widths[1..], g[1..]);
    }
  }

  lemma {:induction false} UnpackIgnoresHigh(widths: seq<nat>, h: nat, n: nat)
    ensures Unpack(widths, h * Pow2(Total(widths)) + n) == Unpack(widths, n)
  {
    if widths != [] {
      hide Pow2;
      var p, w := Pow2(Total(widths[1..])), Pow2(widths[0]);
      Pow2Add(widths[0], Total(widths[1..]));
      assert h * (w * p) == (h * w) * p;
      UnpackIgnoresHigh(widths[1..], h * w, n);
      DigitsAbove(h, w, p, n);
    }
  }

  /** Unpacking gives every field back, modulo its width. */
  lemma {:induction false} UnpackPack(widths: seq<nat>, fields: seq<nat>)
    requires |widths| == |fields|
    ensures Unpack(widths, Pack(widths, fields)) == Masked(widths, fields)
  {
    if widths != [] {
      hide Pow2;
      var p, w, rest := Pow2(Total(widths[1..])), Pow2(widths[0]), Pack(widths[1..], fields[1..]);
      var a := fields[0] % w;
      PackBound(widths[1..], fields[1..]);
      DivModUnique(a * p + rest, p, a, rest);
      DivModUnique(a, w, 0, a);
      UnpackIgnoresHigh(widths[1..], a, rest);
      UnpackPack(widths[1..], fields[1..]);
    }
  }

  /** Every number that fits is the packing of some fields. */
  lemma {:induction false} PackUnpack(widths: seq<nat>, n: nat)
    ensures Pack(widths, Unpack(widths, n)) == n % Pow2(Total(widths))
  {
    if widths != [] {
      hide Pow2;
      var p, w := Pow2(Total(widths[1..])), Pow2(widths[0]);
      PackUnpack(widths[1..], n);
      Pow2Add(widths[0], Total(widths[1..]));
      LowDigits(n, w, p);
      assert Unpack(widths, n)[1..] == Unpack(widths[1..], n);
      DivModUnique(n / p % w, w, 0, n / p % w);
    } else {
      assert Pow2(Total(widths)) == 1;
    }
  }

  // ---------------------------------------------------------------------
  // What the code computes: 64 bits at most, then a conversion to double
  // ---------------------------------------------------------------------

  const MAX_BITS: nat := 64
  const DOUBLE_BITS: nat := 53
  const DEFAULT_BITS: nat := 16

  /** The fields that still fit below `shift`; the first one that does not fit ends the packing. */
  function PackBelow(widths: seq<nat>, fields: seq<nat>, shift: nat): nat
    requires |widths| == |fields|
  {
    if widths == [] || shift < widths[0] then 0
    else
      (fields[0] % Pow2(widths[0])) * Pow2(shift - widths[0]) +
      PackBelow(widths[1..], fields[1..], shift - widths[0])
  }

  /** Distance between neighbouring doubles around n. */
  function Ulp(n: nat): (u: nat)
    ensures u > 0
  {
    if n < Pow2(DOUBLE_BITS) then 1 else 2 * Ulp(n / 2)
  }

  /** Conversion of an unsigned integer to the nearest double, ties to even. */
  function ToDouble(n: nat): nat {
    Nearest(n, Ulp(n))
  }

  /** The multiple of u nearest to n, an even multiple if two are. */
  function Nearest(n: nat, u: nat): nat
    requires u > 0
  {
    var r := n % u;
    RemainderAtMost(n, u);
    if 2 * r < u || (2 * r == u && n / u % 2 == 0) then n - r else n - r + u
  }

  lemma RemainderAtMost(n: nat, u: nat)
    requires u > 0
    ensures n % u <= n
  {
    assert n == n / u * u + n % u;
    assert n / u * u >= 0;
  }

  function Score(widths: seq<nat>, fields: seq<nat>): nat
    requires |widths| == |fields|
  {
    ToDouble(PackBelow(widths, fields, Min(Total(widths), MAX_BITS)))
  }

  /** Widths the shifts are defined for. */
  ghost predicate ProperWidths(widths: seq<nat>) {
    forall i :: 0 <= i < |widths| ==> 1 <= widths[i] < 64
  }

  lemma {:induction false} PackBelowTotal(widths: seq<nat>, fields: seq<nat>)
    requires |widths| == |fields|
    ensures PackBelow(widths, fields, Total(widths)) == Pack(widths, fields)
  {
    hide Pow2;
    if widths != [] {
      PackBelowTotal(widths[1..], fields[1..]);
    }
  }

  lemma SmallIsExact(n: nat)
    requires n < Pow2(DOUBLE_BITS)
    ensures ToDouble(n) == n
  {
    hide Pow2;
    DivModUnique(n, 1, n, 0);
  }

  /** The first integer that a double cannot hold rounds down to its neighbour. */
  lemma FirstInexact()
    ensures ToDouble(Pow2(DOUBLE_BITS) + 1) == ToDouble(Pow2(DOUBLE_BITS))
  {
    var h := Pow2(DOUBLE_BITS - 1);
    assert Pow2(DOUBLE_BITS) == 2 * h && h == 2 * Pow2(DOUBLE_BITS - 2);
    DivModUnique(2 * h, 2, h, 0);
    DivModUnique(2 * h + 1, 2, h, 1);
    hide Pow2;
    assert Ulp(h) == 1;
    assert Ulp(2 * h) == 2 && Ulp(2 * h + 1) == 2;
    DivModUnique(h, 2, Pow2(DOUBLE_BITS - 2), 0);
  }

  // ---------------------------------------------------------------------
  // Exactly when scores order players as their fields do, and decode back
  // ---------------------------------------------------------------------

  /** Scores compare exactly as the masked field tuples do. */
  ghost predicate OrderIsomorphic(widths: seq<nat>) {
    forall f: seq<nat>, g: seq<nat> :: |f| == |g| == |widths| ==>
      (Score(widths, f) < Score(widths, g) <==> LexLess(Masked(widths, f), Masked(widths, g)))
  }

  lemma ExactScore(widths: seq<nat>, fields: seq<nat>)
    requires |widths| == |fields| && Total(widths) <= DOUBLE_BITS
    ensures Score(widths, fields) == Pack(widths, fields)
  {
    hide Pow2;
    PackBelowTotal(widths, fields);
    PackBound(widths, fields);
    Pow2Mono(Total(widths), DOUBLE_BITS);
    SmallIsExact(Pack(widths, fields));
  }

  /** Between 54 and 64 bits, two different field tuples round to the same score. */
  lemma RoundedTogether(widths: seq<nat>) returns (f: seq<nat>, g: seq<nat>)
    requires DOUBLE_BITS < Total(widths) <= MAX_BITS
    ensures |f| == |g| == |widths| && Score(widths, f) == Score(widths, g)
    ensures Masked(widths, f) == f && Masked(widths, g) == g && LexLess(f, g)
  {
    hide Pow2;
    hide ToDouble;
    var n := Pow2(DOUBLE_BITS);
    f, g := Unpack(widths, n), Unpack(widths, n + 1);
    DoubleFitsBelow(Total(widths));
    PackUnpack(widths, n);
    PackUnpack(widths, n + 1);
    DivModUnique(n, Pow2(Total(widths)), 0, n);
    DivModUnique(n + 1, Pow2(Total(widths)), 0, n + 1);
    PackBelowTotal(widths, f);
    PackBelowTotal(widths, g);
    FirstInexact();
    UnpackIsMasked(widths, n);
    UnpackIsMasked(widths, n + 1);
    PackOrder(widths, f, g);
  }

  lemma DoubleFitsBelow(total: nat)
    requires total > DOUBLE_BITS
    ensures Pow2(DOUBLE_BITS) + 1 < Pow2(total)
  {
    Pow2Mono(DOUBLE_BITS + 1, total);
    assert Pow2(DOUBLE_BITS) > 1;
  }

  lemma {:induction false} UnpackIsMasked(widths: seq<nat>, n: nat)
    ensures Masked(widths, Unpack(widths, n)) == Unpack(widths, n)
  {
    hide Pow2;
    if widths != [] {
      var f := Unpack(widths, n);
      DivModUnique(f[0], Pow2(widths[0]), 0, f[0]);
      assert f[1..] == Unpack(widths[1..], n);
      UnpackIsMasked(widths[1..], n);
    }
  }

  /** Beyond 64 bits the last field is not packed at all. */
  lemma {:induction false} LastFieldDropped(widths: seq<nat>, f: seq<nat>, last: nat, shift: nat)
    requires |f| == |widths| && widths != [] && shift < Total(widths)
    ensures PackBelow(widths, f[|f| - 1 := last], shift) == PackBelow(widths, f, shift)
  {
    hide Pow2;
    var g := f[|f| - 1 := last];
    if |widths| == 1 {
      assert Total(widths[1..]) == 0;
    } else if shift >= widths[0] {
      assert g[1..] == f[1..][|f[1..]| - 1 := last];
      LastFieldDropped(widths[1..], f[1..], last, shift - widths[0]);
    }
  }

  lemma {:induction false} MaskedSmall(widths: seq<nat>, f: seq<nat>)
    requires |f| == |widths| && forall i :: 0 <= i < |f| ==> f[i] < Pow2(widths[i])
    ensures Masked(widths, f) == f
  {
    hide Pow2;
    if f != [] {
      DivModUnique(f[0], Pow2(widths[0]), 0, f[0]);
      MaskedSmall(widths[1..], f[1..]);
    }
  }

  lemma {:induction false} LastDecides(f: seq<nat>, last: nat)
    requires f != [] && f[|f| - 1] < last
    ensures LexLess(f, f[|f| - 1 := last])
  {
    if |f| > 1 {
      assert f[|f| - 1 := last][1..] == f[1..][|f[1..]| - 1 := last];
      LastDecides(f[1..], last);
    }
  }

  /** Two players who differ in the last field only. */
  lemma DifferInLast(widths: seq<nat>, f: seq<nat>, g: seq<nat>)
    requires ProperWidths(widths) && widths != []
    requires f == seq(|widths|, _ => 0) && g == f[|f| - 1 := 1]
    ensures LexLess(Masked(widths, f), Masked(widths, g))
  {
    forall i | 0 <= i < |widths| ensures f[i] < Pow2(widths[i]) && g[i] < Pow2(widths[i]) {
      assert Pow2(widths[i]) == 2 * Pow2(widths[i] - 1);
    }
    MaskedSmall(widths, f);
    MaskedSmall(widths, g);
    LastDecides(f, 1);
  }

  /** Above 53 bits, two players who differ get the same score: rounded together, or the last field dropped. */
  lemma SameScore(widths: seq<nat>) returns (f: seq<nat>, g: seq<nat>)
    requires Total(widths) > DOUBLE_BITS && (Total(widths) <= MAX_BITS || ProperWidths(widths))
    ensures |f| == |g| == |widths| && Score(widths, f) == Score(widths, g)
    ensures LexLess(Masked(widths, f), Masked(widths, g))
  {
    if Total(widths) <= MAX_BITS {
      f, g := RoundedTogether(widths);
    } else {
      f := seq(|widths|, _ => 0);
      g := f[|f| - 1 := 1];
      DifferInLast(widths, f, g);
      LastFieldDropped(widths, f, 1, MAX_BITS);
    }
  }

  lemma NotIsomorphic(widths: seq<nat>)
    requires ProperWidths(widths) && Total(widths) > DOUBLE_BITS
    ensures !OrderIsomorphic(widths)
  {
    var f, g := SameScore(widths);
    assert !(Score(widths, f) < Score(widths, g));
  }

  /** Scores order players as their fields do if and only if the fields fit the 53 bits of a double. */
  lemma OrderIsomorphicExactly(widths: seq<nat>)
    requires ProperWidths(widths)
    ensures OrderIsomorphic(widths) <==> Total(widths) <= DOUBLE_BITS
  {
    hide Score;
    if Total(widths) <= DOUBLE_BITS {
      forall f: seq<nat>, g: seq<nat> | |f| == |g| == |widths|
        ensures Score(widths, f) < Score(widths, g) <==> LexLess(Masked(widths, f), Masked(widths, g))
      {
        ExactScore(widths, f);
        ExactScore(widths, g);
        PackOrder(widths, f, g);
      }
    } else {
      NotIsomorphic(widths);
    }
  }

  /** Decoding a score gives every field back, modulo its width. */
  ghost predicate Decodes(widths: seq<nat>) {
    forall f: seq<nat> :: |f| == |widths| ==> Unpack(widths, Score(widths, f)) == Masked(widths, f)
  }

  /** Decoding inverts encoding if and only if the fields fit the 53 bits of a double. */
  lemma DecodesExactly(widths: seq<nat>)
    requires Total(widths) <= MAX_BITS || ProperWidths(widths)
    ensures Decodes(widths) <==> Total(widths) <= DOUBLE_BITS
  {
    hide Score;
    hide Unpack;
    if Total(widths) <= DOUBLE_BITS {
      forall f: seq<nat> | |f| == |widths| ensures Unpack(widths, Score(widths, f)) == Masked(widths, f) {
        ExactScore(widths, f);
        UnpackPack(widths, f);
      }
    } else {
      var f, g := SameScore(widths);
      NotLess(Masked(widths, f));
      var score := Score(widths, f);
      assert Unpack(widths, score) != Masked(widths, f) || Unpack(widths, score) != Masked(widths, g);
    }
  }

  lemma {:induction false} NotLess(f: seq<nat>)
    ensures !LexLess(f, f)
  {
    if f != [] {
      NotLess(f[1..]);
    }
  }

  lemma {:induction false} DefaultTotal(n: nat)
    ensures Total(seq(n, _ => DEFAULT_BITS)) == 16 * n
  {
    if n > 0 {
      DefaultTotal(n - 1);
      assert seq(n, _ => DEFAULT_BITS)[1..] == seq(n - 1, _ => DEFAULT_BITS);
    }
  }

  /** Boards get 16 bits per field, so they rank correctly if and only if they have at most three fields. */
  lemma ThreeDefaultFields(n: nat)
    ensures OrderIsomorphic(seq(n, _ => DEFAULT_BITS)) <==> n <= 3
  {
    DefaultTotal(n);
    OrderIsomorphicExactly(seq(n, _ => DEFAULT_BITS));
  }

  // ---------------------------------------------------------------------
  // The loops
  // ---------------------------------------------------------------------

  datatype Board = Board(names: seq<Option<string>>, widths: seq<nat>)

  /** The value the caller gives for a field: the last one listed under that name, or 0. */
  function LastValue(names: seq<Option<string>>, values: seq<real>, name: string): real
    requires |names| == |values|
  {
    if names == [] then 0.0
    else if names[|names| - 1] == Some(name) then values[|names| - 1]
    else LastValue(names[..|names| - 1], values[..|names| - 1], name)
  }

  /** Distinct names may come in any order. */
  lemma {:induction false} AnyOrder(names: seq<Option<string>>, values: seq<real>, i: nat)
    requires |names| == |values| && Distinct(names) && i < |names| && names[i].Some?
    ensures LastValue(names, values, names[i].value) == values[i]
  {
    var last := |names| - 1;
    if i < last {
      assert names[last] != names[i];
      AnyOrder(names[..last], values[..last], i);
    }
  }

  lemma {:induction false} MissingIsZero(names: seq<Option<string>>, values: seq<real>, name: string)
    requires |names| == |values| && Some(name) !in names
    ensures LastValue(names, values, name) == 0.0
  {
    if names != [] {
      MissingIsZero(names[..|names| - 1], values[..|names| - 1], name);
    }
  }

  /** Board field j is the first of its name. */
  predicate FirstOfName(names: seq<Option<string>>, j: nat)
    requires j < |names|
  {
    names[j].Some? && forall i :: 0 <= i < j ==> names[i] != names[j]
  }

  /** The caller's values in the board's field order. */
  function OrderedFields(board: seq<Option<string>>, names: seq<Option<string>>, values: seq<real>): (r: seq<real>)
    requires |names| == |values|
    ensures |r| == |board|
  {
    seq(|board|, j requires 0 <= j < |board| =>
      if FirstOfName(board, j) then LastValue(names, values, board[j].value) else 0.0)
  }

  /** Sort the caller's values into the board's field order. */
  method OrderFields(board: seq<Option<string>>, names: seq<Option<string>>, values: seq<real>)
    returns (ordered: seq<real>)
    requires |names| == |values|
    ensures ordered == OrderedFields(board, names, values)
  {
    ordered := seq(|board|, _ => 0.0);
    for i := 0 to |names|
      invariant |ordered| == |board|
      invariant forall j :: 0 <= j < |board| ==>
                  ordered[j] ==
                  if FirstOfName(board, j) then LastValue(names[..i], values[..i], board[j].value) else 0.0
    {
      assert names[..i + 1][..i] == names[..i] && values[..i + 1][..i] == values[..i];
      if names[i].Some? {
        var j := 0;
        while j < |board| && board[j] != names[i]
          invariant 0 <= j <= |board|
          invariant forall k :: 0 <= k < j ==> board[k] != names[i]
        {
          j := j + 1;
        }
        if j < |board| {
          ordered := ordered[j := values[i]];
        }
      }
    }
    assert names[..|names|] == names && values[..|values|] == values;
  }

  method SumWidths(widths: seq<nat>) returns (total: nat)
    ensures total == Total(widths)
  {
    total := 0;
    for i := 0 to |widths|
      invariant total + Total(widths[i..]) == Total(widths)
    {
      assert widths[i..][1..] == widths[i + 1..];
      total := total + widths[i];
    }
  }

  function Truncated(values: seq<real>): (f: seq<nat>)
    requires forall i :: 0 <= i < |values| ==> values[i] >= 0.0
    ensures |f| == |values|
  {
    seq(|values|, i requires 0 <= i < |values| => values[i].Floor)
  }

  /** The packing loop with its masks, shifts and ors. */
  method PackFields(widths: seq<nat>, values: seq<real>) returns (composite: nat)
    requires |widths| == |values| && ProperWidths(widths)
    requires forall i :: 0 <= i < |values| ==> 0.0 <= values[i]
    ensures composite == PackBelow(widths, Truncated(values), Min(Total(widths), MAX_BITS))
  {
    hide Pow2;
    hide Or;
    hide And;
    composite := 0;
    var total := SumWidths(widths);
    if total > MAX_BITS {
      total := MAX_BITS;
    }
    ghost var fields := Truncated(values);
    var shift := total;
    ghost var high := 0;
    for i := 0 to |widths|
      invariant 0 <= shift <= total && composite == high * Pow2(shift)
      invariant composite + PackBelow(widths[i..], fields[i..], shift) == PackBelow(widths, fields, total)
    {
      assert widths[i..][1..] == widths[i + 1..] && fields[i..][1..] == fields[i + 1..];
      if shift < widths[i] {
        break;
      }
      var w := widths[i];
      var v := And(values[i].Floor, Pow2(w) - 1);
      AndMask(values[i].Floor, w);
      PlaceField(high, v, shift, w);
      high := high * Pow2(w) + v;
      shift := shift - w;
      composite := Or(composite, v * Pow2(shift));
    }
  }

  lemma PlaceField(high: nat, v: nat, shift: nat, w: nat)
    requires w <= shift && v < Pow2(w)
    ensures Or(high * Pow2(shift), v * Pow2(shift - w)) == high * Pow2(shift) + v * Pow2(shift - w)
    ensures high * Pow2(shift) + v * Pow2(shift - w) == (high * Pow2(w) + v) * Pow2(shift - w)
  {
    hide Pow2;
    hide Or;
    var p := Pow2(shift - w);
    Pow2Add(w, shift - w);
    PairBound(v, 0, p, Pow2(w));
    OrIntoLowBits(high, shift, v * p);
    assert high * (Pow2(w) * p) == (high * Pow2(w)) * p;
  }

  /** encode_composite: missing fields count as 0, values are truncated and masked. */
  method EncodeComposite(board: Board, names: seq<Option<string>>, values: seq<real>) returns (score: nat)
    requires |board.names| == |board.widths| && ProperWidths(board.widths) && |names| == |values|
    requires forall i :: 0 <= i < |values| ==> 0.0 <= values[i] < 18446744073709551616.0
    ensures forall j :: 0 <= j < |board.names| ==> OrderedFields(board.names, names, values)[j] >= 0.0
    ensures score == Score(board.widths, Truncated(OrderedFields(board.names, names, values)))
  {
    var ordered := OrderFields(board.names, names, values);
    forall j | 0 <= j < |ordered| ensures ordered[j] >= 0.0 {
      if FirstOfName(board.names, j) {
        LastValueNonNegative(names, values, board.names[j].value);
      }
    }
    var composite := PackFields(board.widths, ordered);
    score := ToDouble(composite);
  }

  lemma {:induction false} LastValueNonNegative(names: seq<Option<string>>, values: seq<real>, name: string)
    requires |names| == |values| && forall i :: 0 <= i < |values| ==> values[i] >= 0.0
    ensures LastValue(names, values, name) >= 0.0
  {
    if names != [] {
      LastValueNonNegative(names[..|names| - 1], values[..|names| - 1], name);
    }
  }

  lemma {:induction false} MaskedAt(widths: seq<nat>, fields: seq<nat>, j: nat)
    requires |widths| == |fields| && j < |widths|
    ensures Masked(widths, fields)[j] == fields[j] % Pow2(widths[j])
  {
    hide Pow2;
    if j > 0 {
      MaskedAt(widths[1..], fields[1..], j - 1);
    }
  }

  /** The number the caller lists under a name, without its fraction; 0 if there is none. */
  ghost predicate Lists(names: seq<Option<string>>, values: seq<real>, name: Option<string>, n: int)
    requires |names| == |values|
  {
    if name in names then exists i :: 0 <= i < |names| && names[i] == name && values[i].Floor == n else n == 0
  }

  /**
   * End to end: whatever order the caller lists its distinct fields in, decoding the score of a board of
   * at most 53 bits gives for each field what was listed under its name, modulo its width, and 0 for a
   * field that was not listed.
   */
  lemma DecodesTheListedValues(board: Board, names: seq<Option<string>>, values: seq<real>, ordered: seq<real>, j: nat)
    requires |board.names| == |board.widths| && |names| == |values| && j < |board.names|
    requires Total(board.widths) <= DOUBLE_BITS && Distinct(board.names) && Distinct(names) && board.names[j].Some?
    requires ordered == OrderedFields(board.names, names, values)
    requires forall i :: 0 <= i < |ordered| ==> ordered[i] >= 0.0
    ensures exists n: nat :: Lists(names, values, board.names[j], n) &&
              Unpack(board.widths, Score(board.widths, Truncated(ordered)))[j] == n % Pow2(board.widths[j])
  {
    var fields := Truncated(ordered);
    ExactScore(board.widths, fields);
    UnpackPack(board.widths, fields);
    MaskedAt(board.widths, fields, j);
    hide Unpack, Score, Pack, Masked, Pow2;
    var name := board.names[j];
    if name in names {
      var i :| 0 <= i < |names| && names[i] == name;
      AnyOrder(names, values, i);
      assert values[i].Floor == fields[j];
    } else {
      MissingIsZero(names, values, name.value);
    }
    assert Lists(names, values, name, fields[j]);
  }

  /** decode_composite, as far as its shifts are defined: the first and largest one is below 64. */
  method DecodeComposite(widths: seq<nat>, score: nat) returns (fields: seq<nat>)
    requires ProperWidths(widths) && (widths == [] || Total(widths[1..]) < MAX_BITS)
    ensures fields == Unpack(widths, score)
  {
    hide Pow2;
    fields := [];
    var shift := SumWidths(widths);
    for i := 0 to |widths|
      invariant shift == Total(widths[i..])
      invariant fields + Unpack(widths[i..], score) == Unpack(widths, score)
    {
      assert widths[i..][1..] == widths[i + 1..];
      shift := shift - widths[i];
      fields := fields + [score / Pow2(shift) % Pow2(widths[i])];
    }
  }
}
