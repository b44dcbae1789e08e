/** The claims part of the JWT plugin: writing a small JSON object and searching it by text. */
module JwtClaims {
  import opened Collections
  import Decimal

  // ---------------------------------------------------------------------
  // json_escape, json_get_string, json_get_int
  // ---------------------------------------------------------------------

  predicate Control(c: char) {
    c as int < 0x20
  }

  function Hex(d: nat): char
    requires d < 16
  {
    if d < 10 then '0' + d as char else 'a' + (d - 10) as char
  }

  function EscapeChar(c: char): string {
    if c == '"' then "\\\""
    else if c == '\\' then "\\\\"
    else if c as int == 8 then "\\b"
    else if c as int == 12 then "\\f"
    else if c == '\n' then "\\n"
    else if c == '\r' then "\\r"
    else if c == '\t' then "\\t"
    else if Control(c) then "\\u00" + [Hex(c as int / 16), Hex(c as int % 16)]
    else [c]
  }

  function Escape(s: string): string {
    if s == [] then [] else EscapeChar(s[0]) + Escape(s[1..])
  }

  function Needle(key: string): string {
    "\"" + key + "\""
  }

  /** What follows the first occurrence of the quoted key. */
  function After(j: string, key: string): Option<string> {
    if Needle(key) <= j then Some(j[|Needle(key)|..])
    else if j == [] then None
    else After(j[1..], key)
  }

  function AfterColon(j: string): Option<string> {
    if j == [] then None else if j[0] == ':' then Some(j[1..]) else AfterColon(j[1..])
  }

  function SkipBlanks(j: string): string {
    if j != [] && (j[0] == ' ' || j[0] == '\t') then SkipBlanks(j[1..]) else j
  }

  /** A string up to its closing quote; a backslash stands for the character after it. */
  function ReadString(j: string): string {
    if j == [] || j[0] == '"' then []
    else if j[0] == '\\' && |j| > 1 then [j[1]] + ReadString(j[2..])
    else [j[0]] + ReadString(j[1..])
  }

  function Digits(j: string): (d: string)
    ensures Decimal.AllDigits(d)
  {
    if j == [] || !Decimal.IsDigit(j[0]) then [] else [j[0]] + Digits(j[1..])
  }

  function ReadInt(j: string): int {
    if j != [] && j[0] == '-' then 0 - Decimal.Value(Digits(j[1..])) else Decimal.Value(Digits(j))
  }

  /** The text at which the value of a key begins. */
  function ValueText(j: string, key: string): Option<string> {
    match After(j, key)
    case None => None
    case Some(rest) =>
      match AfterColon(rest)
      case None => None
      case Some(v) => Some(SkipBlanks(v))
  }

  function GetString(j: string, key: string): string {
    match ValueText(j, key)
    case None => []
    case Some(v) => if v == [] || v[0] != '"' then [] else ReadString(v[1..])
  }

  function GetInt(j: string, key: string): int {
    match ValueText(j, key)
    case None => 0
    case Some(v) => ReadInt(v)
  }

  // ---------------------------------------------------------------------
  // A text as the pieces between its quotes
  // ---------------------------------------------------------------------

  function Join(pieces: seq<string>): string {
    if pieces == [] then [] else if |pieces| == 1 then pieces[0] else pieces[0] + "\"" + Join(pieces[1..])
  }

  predicate NoQuote(s: string) {
    forall i :: 0 <= i < |s| ==> s[i] != '"'
  }

  ghost predicate NoQuotes(pieces: seq<string>) {
    forall i :: 0 <= i < |pieces| ==> NoQuote(pieces[i])
  }

  /** The pieces after the first one that equals the key and has a quote on either side. */
  function Search(pieces: seq<string>, key: string): Option<seq<string>> {
    if |pieces| < 3 then None else if pieces[1] == key then Some(pieces[2..]) else Search(pieces[1..], key)
  }

  lemma {:induction false} AfterPlain(x: string, y: string, key: string)
    requires NoQuote(x)
    ensures After(x + y, key) == After(y, key)
  {
    if x == [] {
      assert x + y == y;
    } else {
      assert (x + y)[0] != Needle(key)[0];
      assert (x + y)[1..] == x[1..] + y;
      AfterPlain(x[1..], y, key);
    }
  }

  lemma AfterHit(key: string, y: string)
    ensures After("\"" + key + "\"" + y, key) == Some(y)
  {
    assert Needle(key) <= "\"" + key + "\"" + y;
    assert ("\"" + key + "\"" + y)[|Needle(key)|..] == y;
  }

  /** Only the key itself can stand between two neighbouring quotes where the quoted key is found. */
  lemma OnlyTheKey(w: string, y: string, key: string)
    requires NoQuote(w) && NoQuote(key) && Needle(key) <= "\"" + w + "\"" + y
    ensures w == key
  {
    var t, n := "\"" + w + "\"" + y, Needle(key);
    assert forall i :: 0 <= i < |n| ==> n[i] == t[i];
    assert forall i :: 0 <= i < |key| ==> key[i] == n[i + 1];
    assert forall i :: 0 <= i < |w| ==> w[i] == t[i + 1];
    assert n[|key| + 1] == '"' && t[|w| + 1] == '"';
  }

  lemma AfterMiss(w: string, y: string, key: string)
    requires NoQuote(w) && NoQuote(key) && w != key
    ensures After("\"" + w + "\"" + y, key) == After("\"" + y, key)
  {
    if Needle(key) <= "\"" + w + "\"" + y {
      OnlyTheKey(w, y, key);
      assert false;
    }
    var t := "\"" + w + "\"" + y;
    assert t[1..] == w + ("\"" + y);
    AfterPlain(w, "\"" + y, key);
  }

  lemma JoinTail(pieces: seq<string>)
    requires |pieces| >= 2
    ensures Join(pieces) == pieces[0] + ("\"" + Join(pieces[1..]))
  {
    assert pieces[0] + "\"" + Join(pieces[1..]) == pieces[0] + ("\"" + Join(pieces[1..]));
  }

  lemma AfterShort(w: string, key: string)
    requires NoQuote(w) && NoQuote(key)
    ensures After("\"" + w, key) == None
  {
    var t := "\"" + w;
    assert Needle(key)[|key| + 1] == '"';
    assert forall i :: 1 <= i < |t| ==> t[i] == w[i - 1];
    assert t[1..] == w;
    AfterPlain(w, [], key);
    assert w + [] == w;
  }

  /** Searching the text is searching its pieces. */
  lemma {:induction false} AfterIsSearch(pieces: seq<string>, key: string)
    requires |pieces| >= 2 && NoQuotes(pieces) && NoQuote(key)
    ensures After("\"" + Join(pieces[1..]), key) ==
            (match Search(pieces, key) case None => None case Some(rest) => Some(Join(rest)))
  {
    var rest := pieces[1..];
    if |pieces| == 2 {
      AfterShort(rest[0], key);
    } else {
      var w, y := rest[0], Join(rest[1..]);
      assert "\"" + Join(rest) == "\"" + w + "\"" + y;
      if w == key {
        AfterHit(key, y);
        assert rest[1..] == pieces[2..];
      } else {
        AfterMiss(w, y, key);
        AfterIsSearch(rest, key);
      }
    }
  }

  lemma FindInPieces(pieces: seq<string>, key: string)
    requires |pieces| >= 2 && NoQuotes(pieces) && NoQuote(key)
    ensures After(Join(pieces), key) ==
            (match Search(pieces, key) case None => None case Some(rest) => Some(Join(rest)))
  {
    JoinTail(pieces);
    AfterPlain(pieces[0], "\"" + Join(pieces[1..]), key);
    AfterIsSearch(pieces, key);
  }

  lemma {:induction false} JoinConcat(a: seq<string>, b: seq<string>)
    requires a != [] && b != []
    ensures Join(a + b) == Join(a) + "\"" + Join(b)
  {
    if |a| == 1 {
      assert (a + b)[1..] == b;
    } else {
      assert (a + b)[1..] == a[1..] + b;
      JoinConcat(a[1..], b);
      assert a[0] + "\"" + (Join(a[1..]) + "\"" + Join(b)) == (a[0] + "\"" + Join(a[1..])) + "\"" + Join(b);
    }
  }

  // ---------------------------------------------------------------------
  // Escaped values
  // ---------------------------------------------------------------------

  /** The pieces of an escaped value between its (escaped) quotes. */
  function Pieces(u: string): (p: seq<string>)
    ensures p != []
  {
    if u == [] then [[]]
    else
      var rest := Pieces(u[1..]);
      if u[0] == '"' then ["\\"] + rest else [EscapeChar(u[0]) + rest[0]] + rest[1..]
  }

  /** The part of a value after its last double quote. */
  function Tail(u: string): string {
    if '"' in u then Tail(u[1..]) else u
  }

  lemma {:induction false} PiecesJoin(u: string)
    ensures Join(Pieces(u)) == Escape(u)
  {
    if u != [] {
      PiecesJoin(u[1..]);
      var rest := Pieces(u[1..]);
      if u[0] == '"' {
        assert (["\\"] + rest)[1..] == rest;
        assert "\\" + "\"" + Join(rest) == "\\\"" + Join(rest);
      } else {
        PrependToFirst(EscapeChar(u[0]), rest);
      }
    }
  }

  lemma PrependToFirst(x: string, pieces: seq<string>)
    requires pieces != []
    ensures Join([x + pieces[0]] + pieces[1..]) == x + Join(pieces)
  {
    var longer := [x + pieces[0]] + pieces[1..];
    if |pieces| == 1 {
      assert longer == [x + pieces[0]];
    } else {
      assert longer[1..] == pieces[1..];
      assert x + pieces[0] + "\"" + Join(pieces[1..]) == x + (pieces[0] + "\"" + Join(pieces[1..]));
    }
  }

  lemma EscapeCharNoQuote(c: char)
    requires c != '"'
    ensures NoQuote(EscapeChar(c))
  {
  }

  /** No piece has a quote, and every piece but the last one has a backslash. */
  lemma {:induction false} PiecesShape(u: string)
    ensures NoQuotes(Pieces(u))
    ensures forall i :: 0 <= i < |Pieces(u)| - 1 ==> '\\' in Pieces(u)[i]
    ensures Pieces(u)[|Pieces(u)| - 1] == Escape(Tail(u))
    ensures |Pieces(u)| == 1 <==> '"' !in u
  {
    if u != [] {
      PiecesShape(u[1..]);
      assert u == [u[0]] + u[1..];
      var rest := Pieces(u[1..]);
      if u[0] != '"' {
        EscapeCharNoQuote(u[0]);
        if |rest| == 1 {
          assert Tail(u) == u && Tail(u[1..]) == u[1..];
        } else {
          assert '\\' in rest[0];
        }
      } else {
        assert '"' in u;
      }
    }
  }

  /** A key: no quote, no backslash and no other character that is escaped. */
  ghost predicate PlainKey(key: string) {
    forall i :: 0 <= i < |key| ==> key[i] != '"' && key[i] != '\\' && !Control(key[i])
  }

  lemma {:induction false} EscapeIsKey(u: string, key: string)
    requires PlainKey(key)
    ensures Escape(u) == key <==> u == key
    decreases |u|
  {
    if u != [] {
      if key != [] {
        assert Escape(u)[0] == EscapeChar(u[0])[0];
        assert EscapeChar(u[0]) == [u[0]] ==> Escape(u)[1..] == Escape(u[1..]);
        EscapeIsKey(u[1..], key[1..]);
      }
    }
  }

  /** A value is mistaken for the key exactly when its part after the last quote is the key. */
  lemma LastPieceIsKey(u: string, key: string)
    requires PlainKey(key)
    ensures forall i :: 0 <= i < |Pieces(u)| - 1 ==> Pieces(u)[i] != key
    ensures Pieces(u)[|Pieces(u)| - 1] == key <==> Tail(u) == key
  {
    PiecesShape(u);
    EscapeIsKey(Tail(u), key);
  }

  lemma {:induction false} SearchOver(first: string, pieces: seq<string>, rest: seq<string>, key: string)
    requires pieces != [] && rest != []
    requires forall i :: 0 <= i < |pieces| - 1 ==> pieces[i] != key
    ensures pieces[|pieces| - 1] == key ==> Search([first] + pieces + rest, key) == Some(rest)
    ensures pieces[|pieces| - 1] != key ==>
              Search([first] + pieces + rest, key) == Search([pieces[|pieces| - 1]] + rest, key)
    decreases |pieces|
  {
    var all := [first] + pieces + rest;
    assert all[1] == pieces[0];
    if |pieces| == 1 {
      assert all[2..] == rest && all[1..] == pieces + rest;
      assert pieces == [pieces[0]];
    } else {
      assert all[1..] == [pieces[0]] + pieces[1..] + rest;
      SearchOver(pieces[0], pieces[1..], rest, key);
    }
  }

  /** Only what follows the first piece matters to a search. */
  lemma SearchIgnoresFirst(a: string, b: string, rest: seq<string>, key: string)
    ensures Search([a] + rest, key) == Search([b] + rest, key)
  {
    assert ([a] + rest)[1..] == rest && ([b] + rest)[1..] == rest;
    if |rest| >= 2 {
      assert ([a] + rest)[2..] == rest[1..] && ([b] + rest)[2..] == rest[1..];
    }
  }

  /** Searching past an escaped value: the search stops at it if the value is mistaken for the key. */
  lemma SearchValue(first: string, u: string, rest: seq<string>, key: string)
    requires rest != [] && PlainKey(key)
    ensures Search([first] + Pieces(u) + rest, key) ==
            if Tail(u) == key then Some(rest) else Search([first] + rest, key)
  {
    LastPieceIsKey(u, key);
    SearchOver(first, Pieces(u), rest, key);
    SearchIgnoresFirst(Pieces(u)[|Pieces(u)| - 1], first, rest, key);
  }

  lemma SearchMiss(first: string, piece: string, rest: seq<string>, key: string)
    requires piece != key
    ensures Search([first, piece] + rest, key) == Search([first] + rest, key)
  {
    var all := [first, piece] + rest;
    assert all[1..] == [piece] + rest;
    SearchIgnoresFirst(piece, first, rest, key);
    if rest == [] {
      assert Search(all, key) == None;
    }
  }

  lemma SearchHit(first: string, key: string, rest: seq<string>)
    requires rest != []
    ensures Search([first, key] + rest, key) == Some(rest)
  {
    assert ([first, key] + rest)[2..] == rest;
  }

  /** What reading an escaped value back gives: control characters come back as their escape letters. */
  function Stripped(u: string): string {
    if u == [] then []
    else (if Control(u[0]) then EscapeChar(u[0])[1..] else [u[0]]) + Stripped(u[1..])
  }

  lemma ReadPlain(x: string, y: string)
    requires forall i :: 0 <= i < |x| ==> x[i] != '"' && x[i] != '\\'
    ensures ReadString(x + y) == x + ReadString(y)
  {
    if x == [] {
      assert x + y == y;
    } else {
      assert (x + y)[0] == x[0] && (x + y)[1..] == x[1..] + y;
      ReadPlain(x[1..], y);
    }
  }

  lemma ReadEscape(c: char, y: string)
    ensures ReadString(EscapeChar(c) + y) == (if Control(c) then EscapeChar(c)[1..] else [c]) + ReadString(y)
  {
    var e := EscapeChar(c);
    if |e| == 1 {
      ReadPlain(e, y);
    } else {
      assert (e + y)[0] == '\\' && (e + y)[1] == e[1] && (e + y)[2..] == e[2..] + y;
      if |e| > 2 {
        ReadPlain(e[2..], y);
        assert e[1..] == [e[1]] + e[2..];
      } else {
        assert e[2..] + y == y && e[1..] == [e[1]];
      }
    }
  }

  lemma {:induction false} ReadEscaped(u: string, z: string)
    ensures ReadString(Escape(u) + "\"" + z) == Stripped(u)
  {
    if u == [] {
      assert Escape(u) + "\"" + z == "\"" + z;
    } else {
      assert Escape(u) + "\"" + z == EscapeChar(u[0]) + (Escape(u[1..]) + "\"" + z);
      ReadEscape(u[0], Escape(u[1..]) + "\"" + z);
      ReadEscaped(u[1..], z);
    }
  }

  ghost predicate NoControl(u: string) {
    forall i :: 0 <= i < |u| ==> !Control(u[i])
  }

  /** Values come back unchanged exactly when they have no control characters. */
  lemma {:induction false} StrippedExactly(u: string)
    ensures Stripped(u) == u <==> NoControl(u)
  {
    if u != [] {
      StrippedExactly(u[1..]);
      if Control(u[0]) {
        assert Stripped(u)[0] == EscapeChar(u[0])[1] != u[0];
      } else {
        assert Stripped(u)[1..] == Stripped(u[1..]);
        assert NoControl(u) ==> NoControl(u[1..]);
        assert NoControl(u[1..]) ==> NoControl(u) by {
          assert forall i :: 1 <= i < |u| ==> u[i] == u[1..][i - 1];
        }
      }
    }
  }

  // ---------------------------------------------------------------------
  // The scanning loops
  // ---------------------------------------------------------------------

  method JsonEscape(s: string) returns (out: string)
    ensures out == Escape(s)
  {
    out := [];
    assert s[0..] == s;
    for i := 0 to |s|
      invariant out + Escape(s[i..]) == Escape(s)
    {
      assert s[i..][1..] == s[i + 1..];
      assert out + (EscapeChar(s[i]) + Escape(s[i + 1..])) == (out + EscapeChar(s[i])) + Escape(s[i + 1..]);
      out := out + EscapeChar(s[i]);
    }
  }

  /** find of the quoted key; the position after it. */
  method FindKey(j: string, key: string) returns (found: bool, p: nat)
    ensures p <= |j| && found == After(j, key).Some?
    ensures found ==> After(j, key).value == j[p..]
  {
    var n := Needle(key);
    p := 0;
    assert j[0..] == j;
    while p < |j| && !(n <= j[p..])
      invariant p <= |j| && After(j[p..], key) == After(j, key)
    {
      assert j[p..][1..] == j[p + 1..];
      p := p + 1;
    }
    found := p < |j|;
    if found {
      assert j[p..][|n|..] == j[p + |n|..];
      p := p + |n|;
    }
  }

  method FindColon(j: string, from: nat) returns (found: bool, p: nat)
    requires from <= |j|
    ensures p <= |j| && found == AfterColon(j[from..]).Some?
    ensures found ==> AfterColon(j[from..]).value == j[p..]
  {
    p := from;
    while p < |j| && j[p] != ':'
      invariant p <= |j| && AfterColon(j[p..]) == AfterColon(j[from..])
    {
      assert j[p..][1..] == j[p + 1..];
      p := p + 1;
    }
    found := p < |j|;
    if found {
      assert j[p..][1..] == j[p + 1..];
      p := p + 1;
    }
  }

  method FindNonBlank(j: string, from: nat) returns (p: nat)
    requires from <= |j|
    ensures p <= |j| && SkipBlanks(j[from..]) == j[p..]
  {
    p := from;
    while p < |j| && (j[p] == ' ' || j[p] == '\t')
      invariant p <= |j| && SkipBlanks(j[p..]) == SkipBlanks(j[from..])
    {
      assert j[p..][1..] == j[p + 1..];
      p := p + 1;
    }
  }

  /** The position of the value of a key. */
  method FindValue(j: string, key: string) returns (found: bool, p: nat)
    ensures p <= |j| && found == ValueText(j, key).Some?
    ensures found ==> ValueText(j, key).value == j[p..]
  {
    hide After;
    hide AfterColon;
    hide SkipBlanks;
    found, p := FindKey(j, key);
    if found {
      found, p := FindColon(j, p);
    }
    if found {
      p := FindNonBlank(j, p);
    }
  }

  method JsonGetString(j: string, key: string) returns (out: string)
    ensures out == GetString(j, key)
  {
    hide ValueText;
    out := [];
    var found, p := FindValue(j, key);
    if !found || p == |j| || j[p] != '"' {
      return;
    }
    ghost var v := j[p..];
    assert v[1..] == j[p + 1..];
    p := p + 1;
    while p < |j| && j[p] != '"'
      invariant p <= |j| && out + ReadString(j[p..]) == ReadString(v[1..])
    {
      if j[p] == '\\' && p + 1 < |j| {
        assert j[p..][2..] == j[p + 2..];
        assert out + ([j[p + 1]] + ReadString(j[p + 2..])) == (out + [j[p + 1]]) + ReadString(j[p + 2..]);
        out := out + [j[p + 1]];
        p := p + 2;
      } else {
        assert j[p..][1..] == j[p + 1..];
        assert out + ([j[p]] + ReadString(j[p + 1..])) == (out + [j[p]]) + ReadString(j[p + 1..]);
        out := out + [j[p]];
        p := p + 1;
      }
    }
  }

  lemma {:induction false} DigitsGrow(d: string, j: string)
    requires Decimal.AllDigits(d) && j != [] && Decimal.IsDigit(j[0])
    ensures Decimal.AllDigits(d + [j[0]])
    ensures Decimal.Value(d + [j[0]]) == 10 * Decimal.Value(d) + Decimal.DigitValue(j[0])
    ensures d + Digits(j) == (d + [j[0]]) + Digits(j[1..])
  {
    var longer := d + [j[0]];
    assert longer[..|d|] == d && longer[|d|] == j[0];
    assert d + ([j[0]] + Digits(j[1..])) == longer + Digits(j[1..]);
  }

  lemma NoDigits()
    ensures Decimal.Value([]) == 0
  {
  }

  method JsonGetInt(j: string, key: string) returns (v: int)
    ensures v == GetInt(j, key)
  {
    hide ValueText;
    hide Decimal.Value;
    var found, p := FindValue(j, key);
    if !found {
      return 0;
    }
    ghost var text := j[p..];
    assert Decimal.Value([]) == 0 by { NoDigits(); }
    var neg := p < |j| && j[p] == '-';
    if neg {
      assert text[1..] == j[p + 1..];
      p := p + 1;
    }
    ghost var all, d: string := Digits(j[p..]), [];
    v := 0;
    while p < |j| && Decimal.IsDigit(j[p])
      invariant p <= |j| && Decimal.AllDigits(d) && v == Decimal.Value(d)
      invariant d + Digits(j[p..]) == all
    {
      DigitsGrow(d, j[p..]);
      assert j[p..][1..] == j[p + 1..];
      v := v * 10 + Decimal.DigitValue(j[p]);
      d := d + [j[p]];
      p := p + 1;
    }
    assert Digits(j[p..]) == [];
    assert d == all;
    v := if neg then 0 - v else v;
  }
}
