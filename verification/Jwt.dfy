/** HS256 tokens: creation and verification. The HMAC is a parameter. */
module Jwt {
  import opened JwtClaims
  import Base64Url
  import opened Collections
  import Decimal

  datatype Config = Config(secret: string, issuer: string, audience: string, ttl: int, leeway: int)

  datatype Verdict = Accepted(user: string) | Rejected(error: string)

  // ---------------------------------------------------------------------
  // The payload
  // ---------------------------------------------------------------------

  function AudienceText(c: Config): string {
    if c.audience == "" then "}" else ",\"aud\":\"" + (Escape(c.audience) + ("\"" + "}"))
  }

  function IssuerText(c: Config): string {
    if c.issuer == "" then AudienceText(c) else ",\"iss\":\"" + (Escape(c.issuer) + ("\"" + AudienceText(c)))
  }

  function Payload(c: Config, user: string, iat: int): string {
    "{\"sub\":\"" + (Escape(user) + ("\"" +
    (",\"iat\":" + (Decimal.Signed(iat) +
    (",\"exp\":" + (Decimal.Signed(iat + c.ttl) + IssuerText(c)))))))
  }

  /** The claims of the payload, checked against the clock. */
  function CheckClaims(c: Config, payload: string, now: int): Verdict {
    var exp := GetInt(payload, "exp");
    var iat := GetInt(payload, "iat");
    if exp != 0 && now > exp + c.leeway then Rejected("token_expired")
    else if iat != 0 && now + c.leeway < iat then Rejected("token_not_yet_valid")
    else if c.issuer != "" && GetString(payload, "iss") != c.issuer then Rejected("invalid_issuer")
    else if c.audience != "" && GetString(payload, "aud") != c.audience then Rejected("invalid_audience")
    else if GetString(payload, "sub") == "" then Rejected("missing_subject")
    else Accepted(GetString(payload, "sub"))
  }

  // ---------------------------------------------------------------------
  // The payload in pieces
  // ---------------------------------------------------------------------

  function AudiencePieces(c: Config, before: string): (p: seq<string>)
    ensures p != []
  {
    if c.audience == "" then [before + "}"] else [before + ",", "aud", ":"] + (Pieces(c.audience) + ["}"])
  }

  function IssuerPieces(c: Config, before: string): (p: seq<string>)
    ensures p != []
  {
    if c.issuer == "" then AudiencePieces(c, before)
    else [before + ",", "iss", ":"] + (Pieces(c.issuer) + AudiencePieces(c, ""))
  }

  function TimePieces(c: Config, iat: int): seq<string> {
    [",", "iat", ":" + Decimal.Signed(iat) + ","] + (["exp"] + IssuerPieces(c, ":" + Decimal.Signed(iat + c.ttl)))
  }

  function PayloadPieces(c: Config, user: string, iat: int): seq<string> {
    ["{", "sub", ":"] + (Pieces(user) + TimePieces(c, iat))
  }

  lemma JoinOne(a: string, rest: seq<string>)
    requires rest != []
    ensures Join([a] + rest) == a + ("\"" + Join(rest))
  {
    assert ([a] + rest)[1..] == rest;
    JoinTail([a] + rest);
  }

  lemma JoinThree(a: string, b: string, c: string, rest: seq<string>)
    requires rest != []
    ensures Join([a, b, c] + rest) == a + ("\"" + (b + ("\"" + (c + ("\"" + Join(rest))))))
  {
    hide *;
    assert [a, b, c] + rest == [a] + ([b] + ([c] + rest));
    JoinOne(a, [b] + ([c] + rest));
    JoinOne(b, [c] + rest);
    JoinOne(c, rest);
  }

  lemma JoinValue(u: string, rest: seq<string>)
    requires rest != []
    ensures Join(Pieces(u) + rest) == Escape(u) + ("\"" + Join(rest))
  {
    hide *;
    JoinConcat(Pieces(u), rest);
    PiecesJoin(u);
    assert Escape(u) + "\"" + Join(rest) == Escape(u) + ("\"" + Join(rest));
  }

  /** A claim name of three letters between quotes, with what stands before it and after it. */
  lemma ClaimText(before: string, name: string, x: string)
    requires |name| == 3
    ensures before + "," + ("\"" + (name + ("\"" + (":" + ("\"" + x))))) == before + ((",\"" + name + "\":\"") + x)
  {
    hide *;
    var l, r := "," + ("\"" + (name + ("\"" + (":" + ("\"" + x))))), (",\"" + name + "\":\"") + x;
    assert l == r;
    assert before + "," + ("\"" + (name + ("\"" + (":" + ("\"" + x))))) == before + l;
  }

  lemma JoinAudience(c: Config, before: string)
    ensures Join(AudiencePieces(c, before)) == before + AudienceText(c)
  {
    hide Escape;
    hide Pieces;
    if c.audience != "" {
      hide Join;
      JoinThree(before + ",", "aud", ":", Pieces(c.audience) + ["}"]);
      JoinValue(c.audience, ["}"]);
      JoinSingle("}");
      ClaimText(before, "aud", Escape(c.audience) + ("\"" + "}"));
      assert ",\"" + "aud" + "\":\"" == ",\"aud\":\"";
    }
  }

  lemma JoinSingle(a: string)
    ensures Join([a]) == a
  {
  }

  lemma JoinIssuer(c: Config, before: string)
    ensures Join(IssuerPieces(c, before)) == before + IssuerText(c)
  {
    hide Escape;
    hide Pieces;
    hide Join;
    hide AudienceText;
    hide AudiencePieces;
    JoinAudience(c, before);
    if c.issuer != "" {
      JoinAudience(c, "");
      assert "" + AudienceText(c) == AudienceText(c);
      JoinThree(before + ",", "iss", ":", Pieces(c.issuer) + AudiencePieces(c, ""));
      JoinValue(c.issuer, AudiencePieces(c, ""));
      ClaimText(before, "iss", Escape(c.issuer) + ("\"" + AudienceText(c)));
      assert ",\"" + "iss" + "\":\"" == ",\"iss\":\"";
    }
  }

  lemma TimesText(n: string, m: string, x: string)
    ensures "," + ("\"" + ("iat" + ("\"" + (":" + n + "," + ("\"" + ("exp" + ("\"" + (":" + m + x)))))))) ==
            ",\"iat\":" + (n + (",\"exp\":" + (m + x)))
  {
    hide *;
    var y := "\"" + ("exp" + ("\"" + (":" + m + x)));
    assert "," + y == ",\"exp\":" + (m + x);
    assert ":" + n + "," + y == ":" + (n + ("," + y));
    assert "," + ("\"" + ("iat" + ("\"" + (":" + (n + ("," + y)))))) == ",\"iat\":" + (n + ("," + y));
  }

  lemma JoinTimes(c: Config, iat: int)
    ensures Join(TimePieces(c, iat)) ==
            ",\"iat\":" + (Decimal.Signed(iat) + (",\"exp\":" + (Decimal.Signed(iat + c.ttl) + IssuerText(c))))
  {
    var n, m := Decimal.Signed(iat), Decimal.Signed(iat + c.ttl);
    var rest := IssuerPieces(c, ":" + m);
    assert TimePieces(c, iat) == [",", "iat", ":" + n + ","] + (["exp"] + rest);
    hide *;
    JoinThree(",", "iat", ":" + n + ",", ["exp"] + rest);
    JoinOne("exp", rest);
    JoinIssuer(c, ":" + m);
    TimesText(n, m, IssuerText(c));
  }

  lemma SubText(x: string)
    ensures "{" + ("\"" + ("sub" + ("\"" + (":" + ("\"" + x))))) == "{\"sub\":\"" + x
  {
  }

  lemma PayloadInPieces(c: Config, user: string, iat: int)
    ensures Payload(c, user, iat) == Join(PayloadPieces(c, user, iat))
  {
    hide Escape;
    hide Pieces;
    hide Join;
    hide IssuerText;
    hide IssuerPieces;
    hide Decimal.Signed;
    var times := TimePieces(c, iat);
    JoinTimes(c, iat);
    JoinThree("{", "sub", ":", Pieces(user) + times);
    JoinValue(user, times);
    SubText(Escape(user) + ("\"" + Join(times)));
  }

  // ---------------------------------------------------------------------
  // Reading numbers and strings back
  // ---------------------------------------------------------------------

  lemma {:induction false} ColonLater(x: string, y: string)
    requires forall i :: 0 <= i < |x| ==> x[i] != ':'
    ensures AfterColon(x + (":" + y)) == Some(y)
  {
    var t := x + (":" + y);
    if x == [] {
      assert t == ":" + y && t[1..] == y;
    } else {
      assert t[1..] == x[1..] + (":" + y);
      ColonLater(x[1..], y);
    }
  }

  lemma {:induction false} DigitsOf(d: string, z: string)
    requires Decimal.AllDigits(d) && z != [] && !Decimal.IsDigit(z[0])
    ensures Digits(d + z) == d
  {
    if d == [] {
      assert d + z == z;
    } else {
      assert (d + z)[1..] == d[1..] + z;
      DigitsOf(d[1..], z);
    }
  }

  lemma NaturalReads(n: nat, z: string)
    requires z != [] && !Decimal.IsDigit(z[0])
    ensures Digits(Decimal.Text(n) + z) == Decimal.Text(n) && Decimal.Value(Digits(Decimal.Text(n) + z)) == n
    ensures Decimal.IsDigit((Decimal.Text(n) + z)[0])
  {
    hide Digits;
    hide Decimal.Value;
    Decimal.ValueOfText(n);
    DigitsOf(Decimal.Text(n), z);
  }

  /** A printed number reads back, and it is not taken for a string. */
  lemma NumberReads(n: int, z: string)
    requires z != [] && !Decimal.IsDigit(z[0])
    ensures ReadInt(Decimal.Signed(n) + z) == n
    ensures SkipBlanks(Decimal.Signed(n) + z) == Decimal.Signed(n) + z
    ensures Decimal.Signed(n) + z != [] && (Decimal.Signed(n) + z)[0] != '"'
  {
    hide Digits;
    hide Decimal.Value;
    hide Decimal.Text;
    var t := Decimal.Signed(n) + z;
    if n < 0 {
      NaturalReads(0 - n, z);
      assert t[0] == '-' && t[1..] == Decimal.Text(0 - n) + z;
    } else {
      NaturalReads(n, z);
    }
  }

  /** The value text after a key is found in the given pieces. */
  lemma FoundAt(j: string, pieces: seq<string>, key: string, rest: seq<string>, v: string)
    requires j == Join(pieces) && |pieces| >= 2 && NoQuotes(pieces) && NoQuote(key)
    requires Search(pieces, key) == Some(rest) && AfterColon(Join(rest)) == Some(v)
    ensures ValueText(j, key) == Some(SkipBlanks(v))
  {
    hide Join;
    hide Search;
    hide After;
    hide AfterColon;
    FindInPieces(pieces, key);
  }

  lemma NoQuoteSigned(n: int)
    ensures NoQuote(Decimal.Signed(n))
  {
  }

  lemma NoQuotesConcat(a: seq<string>, b: seq<string>)
    requires NoQuotes(a) && NoQuotes(b)
    ensures NoQuotes(a + b)
  {
  }

  lemma AudienceNoQuotes(c: Config, before: string)
    requires NoQuote(before)
    ensures NoQuotes(AudiencePieces(c, before))
  {
    hide Pieces;
    PiecesShape(c.audience);
    if c.audience != "" {
      NoQuotesConcat(Pieces(c.audience), ["}"]);
      NoQuotesConcat([before + ",", "aud", ":"], Pieces(c.audience) + ["}"]);
    }
  }

  lemma IssuerNoQuotes(c: Config, before: string)
    requires NoQuote(before)
    ensures NoQuotes(IssuerPieces(c, before))
  {
    hide Pieces;
    hide AudiencePieces;
    PiecesShape(c.issuer);
    AudienceNoQuotes(c, before);
    AudienceNoQuotes(c, "");
    if c.issuer != "" {
      NoQuotesConcat(Pieces(c.issuer), AudiencePieces(c, ""));
      NoQuotesConcat([before + ",", "iss", ":"], Pieces(c.issuer) + AudiencePieces(c, ""));
    }
  }

  lemma TimesNoQuotes(c: Config, iat: int)
    ensures NoQuotes(TimePieces(c, iat))
  {
    hide Decimal.Signed;
    hide IssuerPieces;
    var n, m := Decimal.Signed(iat), Decimal.Signed(iat + c.ttl);
    NoQuoteSigned(iat);
    NoQuoteSigned(iat + c.ttl);
    IssuerNoQuotes(c, ":" + m);
    NoQuotesConcat(["exp"], IssuerPieces(c, ":" + m));
    NoQuotesConcat([",", "iat", ":" + n + ","], ["exp"] + IssuerPieces(c, ":" + m));
  }

  lemma PayloadNoQuotes(c: Config, user: string, iat: int)
    ensures NoQuotes(PayloadPieces(c, user, iat)) && |PayloadPieces(c, user, iat)| >= 2
  {
    hide Pieces;
    hide TimePieces;
    PiecesShape(user);
    TimesNoQuotes(c, iat);
    NoQuotesConcat(Pieces(user), TimePieces(c, iat));
    NoQuotesConcat(["{", "sub", ":"], Pieces(user) + TimePieces(c, iat));
  }

  // ---------------------------------------------------------------------
  // Where each key is found
  // ---------------------------------------------------------------------

  /** Past the subject: the search stops at a user id that is mistaken for the key. */
  lemma SearchPastUser(c: Config, user: string, iat: int, key: string)
    requires PlainKey(key) && key != "sub" && key != ":"
    ensures Search(PayloadPieces(c, user, iat), key) ==
            if Tail(user) == key then Some(TimePieces(c, iat)) else Search(["{"] + TimePieces(c, iat), key)
  {
    hide Search;
    hide Pieces;
    hide TimePieces;
    hide PlainKey;
    var rest := Pieces(user) + TimePieces(c, iat);
    TimesNotEmpty(c, iat);
    assert ["{", "sub", ":"] + rest == ["{", "sub"] + ([":"] + rest);
    SearchMiss("{", "sub", [":"] + rest, key);
    assert ["{"] + ([":"] + rest) == ["{", ":"] + rest;
    SearchMiss("{", ":", rest, key);
    assert ["{"] + rest == ["{"] + Pieces(user) + TimePieces(c, iat);
    SearchValue("{", user, TimePieces(c, iat), key);
  }

  lemma TimesNotEmpty(c: Config, iat: int)
    ensures TimePieces(c, iat) != []
  {
  }

  /** Three pieces that are not the key. */
  lemma SearchMissThree(first: string, x: string, y: string, z: string, rest: seq<string>, key: string)
    requires x != key && y != key && z != key
    ensures Search([first] + ([x, y, z] + rest), key) == Search([first] + rest, key)
  {
    hide Search;
    assert [first] + ([x, y, z] + rest) == [first, x] + ([y, z] + rest);
    SearchMiss(first, x, [y, z] + rest, key);
    assert [first] + ([y, z] + rest) == [first, y] + ([z] + rest);
    SearchMiss(first, y, [z] + rest, key);
    assert [first] + ([z] + rest) == [first, z] + rest;
    SearchMiss(first, z, rest, key);
  }

  lemma SearchSecond(first: string, x: string, key: string, rest: seq<string>)
    requires x != key && rest != []
    ensures Search([first] + ([x, key] + rest), key) == Some(rest)
  {
    hide Search;
    assert [first] + ([x, key] + rest) == [first, x] + ([key] + rest);
    SearchMiss(first, x, [key] + rest, key);
    assert [first] + ([key] + rest) == [first, key] + rest;
    SearchHit(first, key, rest);
  }

  lemma SearchIat(c: Config, iat: int)
    ensures Search(["{"] + TimePieces(c, iat), "iat") ==
            Some([":" + Decimal.Signed(iat) + ","] + (["exp"] + IssuerPieces(c, ":" + Decimal.Signed(iat + c.ttl))))
  {
    hide Search;
    hide IssuerPieces;
    hide Decimal.Signed;
    var z, rest := ":" + Decimal.Signed(iat) + ",", ["exp"] + IssuerPieces(c, ":" + Decimal.Signed(iat + c.ttl));
    assert [",", "iat", z] + rest == [",", "iat"] + ([z] + rest);
    SearchSecond("{", ",", "iat", [z] + rest);
  }

  /** Past the two times. */
  lemma SearchPastTimes(c: Config, iat: int, key: string)
    requires key != "" && key[0] != ',' && key[0] != ':' && key != "iat"
    ensures Search(["{"] + TimePieces(c, iat), key) ==
            Search(["{"] + (["exp"] + IssuerPieces(c, ":" + Decimal.Signed(iat + c.ttl))), key)
  {
    hide Search;
    hide IssuerPieces;
    hide Decimal.Signed;
    var z, rest := ":" + Decimal.Signed(iat) + ",", ["exp"] + IssuerPieces(c, ":" + Decimal.Signed(iat + c.ttl));
    SearchMissThree("{", ",", "iat", z, rest, key);
  }

  lemma SearchExp(c: Config, iat: int)
    ensures Search(["{"] + TimePieces(c, iat), "exp") == Some(IssuerPieces(c, ":" + Decimal.Signed(iat + c.ttl)))
  {
    hide Search;
    hide TimePieces;
    hide Decimal.Signed;
    var rest := IssuerPieces(c, ":" + Decimal.Signed(iat + c.ttl));
    SearchPastTimes(c, iat, "exp");
    assert ["{"] + (["exp"] + rest) == ["{", "exp"] + rest;
    SearchHit("{", "exp", rest);
  }

  lemma SearchPastExp(c: Config, iat: int, key: string)
    requires key != "" && key[0] != ',' && key[0] != ':' && key != "iat" && key != "exp"
    ensures Search(["{"] + TimePieces(c, iat), key) ==
            Search(["{"] + IssuerPieces(c, ":" + Decimal.Signed(iat + c.ttl)), key)
  {
    hide Search;
    hide TimePieces;
    hide Decimal.Signed;
    var rest := IssuerPieces(c, ":" + Decimal.Signed(iat + c.ttl));
    SearchPastTimes(c, iat, key);
    assert ["{"] + (["exp"] + rest) == ["{", "exp"] + rest;
    SearchMiss("{", "exp", rest, key);
  }

  lemma SearchIss(c: Config, before: string)
    requires c.issuer != "" && before != "" && before[0] == ':'
    ensures Search(["{"] + IssuerPieces(c, before), "iss") == Some([":"] + (Pieces(c.issuer) + AudiencePieces(c, "")))
  {
    hide Search;
    hide AudiencePieces;
    hide Pieces;
    var rest := Pieces(c.issuer) + AudiencePieces(c, "");
    assert [before + ",", "iss", ":"] + rest == [before + ",", "iss"] + ([":"] + rest);
    assert (before + ",")[0] == ':' != "iss"[0];
    SearchSecond("{", before + ",", "iss", [":"] + rest);
  }

  lemma SearchAudHere(c: Config, before: string)
    requires c.audience != "" && (before == "" || before[0] == ':')
    ensures Search(["{"] + AudiencePieces(c, before), "aud") == Some([":"] + (Pieces(c.audience) + ["}"]))
  {
    hide Search;
    hide Pieces;
    var rest := Pieces(c.audience) + ["}"];
    assert [before + ",", "aud", ":"] + rest == [before + ",", "aud"] + ([":"] + rest);
    assert (before + ",")[0] != "aud"[0];
    SearchSecond("{", before + ",", "aud", [":"] + rest);
  }

  /** The audience is found at its own key, or already at an issuer that is mistaken for the key. */
  lemma SearchAud(c: Config, before: string)
    requires c.audience != "" && before != "" && before[0] == ':'
    ensures Search(["{"] + IssuerPieces(c, before), "aud") ==
            if c.issuer != "" && Tail(c.issuer) == "aud" then Some(AudiencePieces(c, ""))
            else Some([":"] + (Pieces(c.audience) + ["}"]))
  {
    hide Search;
    hide AudiencePieces;
    hide Pieces;
    if c.issuer == "" {
      SearchAudHere(c, before);
    } else {
      var rest := AudiencePieces(c, "");
      assert (before + ",")[0] == ':' != "aud"[0];
      SearchMissThree("{", before + ",", "iss", ":", Pieces(c.issuer) + rest, "aud");
      assert ["{"] + (Pieces(c.issuer) + rest) == ["{"] + Pieces(c.issuer) + rest;
      SearchValue("{", c.issuer, rest, "aud");
      SearchAudHere(c, "");
    }
  }

  // ---------------------------------------------------------------------
  // What each claim reads as
  // ---------------------------------------------------------------------

  lemma IssuerTextStart(c: Config)
    ensures IssuerText(c) != [] && !Decimal.IsDigit(IssuerText(c)[0])
  {
  }

  /** The text at the times, where a mistaken user id leads any search. */
  lemma AtTimes(c: Config, user: string, iat: int, key: string)
    requires PlainKey(key) && key != "sub" && key != ":" && Tail(user) == key
    ensures GetInt(Payload(c, user, iat), key) == iat && GetString(Payload(c, user, iat), key) == ""
  {
    hide Search;
    hide Join;
    hide Payload;
    hide PayloadPieces;
    hide TimePieces;
    hide Decimal.Signed;
    hide ReadInt;
    hide AfterColon;
    hide SkipBlanks;
    PayloadInPieces(c, user, iat);
    PayloadNoQuotes(c, user, iat);
    SearchPastUser(c, user, iat, key);
    JoinTimes(c, iat);
    var z := ",\"exp\":" + (Decimal.Signed(iat + c.ttl) + IssuerText(c));
    var v := Decimal.Signed(iat) + z;
    assert ",\"iat\":" + v == ",\"iat\"" + (":" + v);
    ColonLater(",\"iat\"", v);
    assert z[0] == ',';
    NumberReads(iat, z);
    FoundAt(Payload(c, user, iat), PayloadPieces(c, user, iat), key, TimePieces(c, iat), v);
  }

  lemma IatAtKey(c: Config, user: string, iat: int)
    requires Tail(user) != "iat"
    ensures ValueText(Payload(c, user, iat), "iat") ==
            Some(SkipBlanks(Decimal.Signed(iat) +
              ("," + ("\"" + Join(["exp"] + IssuerPieces(c, ":" + Decimal.Signed(iat + c.ttl)))))))
  {
    hide *;
    PayloadInPieces(c, user, iat);
    PayloadNoQuotes(c, user, iat);
    IatIsPlain();
    SearchPastUser(c, user, iat, "iat");
    SearchIat(c, iat);
    var n, more := Decimal.Signed(iat), ["exp"] + IssuerPieces(c, ":" + Decimal.Signed(iat + c.ttl));
    JoinOne(":" + n + ",", more);
    var z := "," + ("\"" + Join(more));
    assert ":" + n + "," + ("\"" + Join(more)) == "" + (":" + (n + z));
    ColonLater("", n + z);
    FoundAt(Payload(c, user, iat), PayloadPieces(c, user, iat), "iat", [":" + n + ","] + more, n + z);
  }

  lemma IatIsPlain()
    ensures PlainKey("iat") && NoQuote("iat")
  {
  }

  lemma IatClaim(c: Config, user: string, iat: int)
    ensures GetInt(Payload(c, user, iat), "iat") == iat
  {
    if Tail(user) == "iat" {
      AtTimes(c, user, iat, "iat");
    } else {
      IatAtKey(c, user, iat);
      NumberReads(iat, "," + ("\"" + Join(["exp"] + IssuerPieces(c, ":" + Decimal.Signed(iat + c.ttl)))));
    }
  }

  lemma ExpAtKey(c: Config, user: string, iat: int)
    requires Tail(user) != "exp"
    ensures ValueText(Payload(c, user, iat), "exp") == Some(SkipBlanks(Decimal.Signed(iat + c.ttl) + IssuerText(c)))
  {
    hide *;
    PayloadInPieces(c, user, iat);
    PayloadNoQuotes(c, user, iat);
    ExpIsPlain();
    SearchPastUser(c, user, iat, "exp");
    SearchExp(c, iat);
    var m := Decimal.Signed(iat + c.ttl);
    JoinIssuer(c, ":" + m);
    assert ":" + m + IssuerText(c) == "" + (":" + (m + IssuerText(c)));
    ColonLater("", m + IssuerText(c));
    FoundAt(Payload(c, user, iat), PayloadPieces(c, user, iat), "exp", IssuerPieces(c, ":" + m), m + IssuerText(c));
  }

  lemma ExpIsPlain()
    ensures PlainKey("exp") && NoQuote("exp")
  {
  }

  lemma ExpClaim(c: Config, user: string, iat: int)
    ensures GetInt(Payload(c, user, iat), "exp") == if Tail(user) == "exp" then iat else iat + c.ttl
  {
    if Tail(user) == "exp" {
      AtTimes(c, user, iat, "exp");
    } else {
      ExpAtKey(c, user, iat);
      IssuerTextStart(c);
      NumberReads(iat + c.ttl, IssuerText(c));
    }
  }

  /** A string claim read at its colon. */
  lemma StringReads(j: string, pieces: seq<string>, key: string, u: string, more: seq<string>)
    requires j == Join(pieces) && |pieces| >= 2 && NoQuotes(pieces) && NoQuote(key) && more != []
    requires Search(pieces, key) == Some([":"] + (Pieces(u) + more))
    ensures GetString(j, key) == Stripped(u)
  {
    hide Search;
    hide Join;
    hide Pieces;
    hide Escape;
    hide AfterColon;
    hide ReadString;
    JoinOne(":", Pieces(u) + more);
    JoinValue(u, more);
    var v := "\"" + (Escape(u) + ("\"" + Join(more)));
    assert ":" + v == "" + (":" + v);
    ColonLater("", v);
    FoundAt(j, pieces, key, [":"] + (Pieces(u) + more), v);
    assert SkipBlanks(v) == v;
    assert v[1..] == Escape(u) + ("\"" + Join(more));
    assert Escape(u) + ("\"" + Join(more)) == Escape(u) + "\"" + Join(more);
    ReadEscaped(u, Join(more));
  }

  lemma SubClaim(c: Config, user: string, iat: int)
    ensures GetString(Payload(c, user, iat), "sub") == Stripped(user)
  {
    hide Search;
    hide Join;
    hide Payload;
    hide Pieces;
    hide TimePieces;
    hide Stripped;
    PayloadInPieces(c, user, iat);
    PayloadNoQuotes(c, user, iat);
    TimesNotEmpty(c, iat);
    var rest := Pieces(user) + TimePieces(c, iat);
    assert ["{", "sub", ":"] + rest == ["{", "sub"] + ([":"] + rest);
    SearchHit("{", "sub", [":"] + rest);
    StringReads(Payload(c, user, iat), PayloadPieces(c, user, iat), "sub", user, TimePieces(c, iat));
  }

  lemma IssClaim(c: Config, user: string, iat: int)
    requires c.issuer != ""
    ensures GetString(Payload(c, user, iat), "iss") == if Tail(user) == "iss" then "" else Stripped(c.issuer)
  {
    if Tail(user) == "iss" {
      AtTimes(c, user, iat, "iss");
    } else {
      hide Search;
      hide Join;
      hide Payload;
      hide PayloadPieces;
      hide TimePieces;
      hide IssuerPieces;
      hide Stripped;
      PayloadInPieces(c, user, iat);
      PayloadNoQuotes(c, user, iat);
      SearchPastUser(c, user, iat, "iss");
      SearchPastExp(c, iat, "iss");
      SearchIss(c, ":" + Decimal.Signed(iat + c.ttl));
      StringReads(Payload(c, user, iat), PayloadPieces(c, user, iat), "iss", c.issuer, AudiencePieces(c, ""));
    }
  }

  lemma AudClaim(c: Config, user: string, iat: int)
    requires c.audience != ""
    ensures GetString(Payload(c, user, iat), "aud") == if Tail(user) == "aud" then "" else Stripped(c.audience)
  {
    if Tail(user) == "aud" {
      AtTimes(c, user, iat, "aud");
    } else {
      hide Search;
      hide Join;
      hide Payload;
      hide PayloadPieces;
      hide TimePieces;
      hide IssuerPieces;
      hide Stripped;
      PayloadInPieces(c, user, iat);
      PayloadNoQuotes(c, user, iat);
      SearchPastUser(c, user, iat, "aud");
      SearchPastExp(c, iat, "aud");
      SearchAud(c, ":" + Decimal.Signed(iat + c.ttl));
      if c.issuer != "" && Tail(c.issuer) == "aud" {
        AudAtIssuer(c, user, iat);
      } else {
        StringReads(Payload(c, user, iat), PayloadPieces(c, user, iat), "aud", c.audience, ["}"]);
      }
    }
  }

  /** An issuer mistaken for the audience key does no harm: the next colon is the audience's own. */
  lemma AudAtIssuer(c: Config, user: string, iat: int)
    requires c.audience != ""
    requires Search(PayloadPieces(c, user, iat), "aud") == Some(AudiencePieces(c, ""))
    ensures GetString(Payload(c, user, iat), "aud") == Stripped(c.audience)
  {
    hide Search;
    hide Join;
    hide Payload;
    hide PayloadPieces;
    hide Escape;
    hide AfterColon;
    hide ReadString;
    hide AudiencePieces;
    PayloadInPieces(c, user, iat);
    PayloadNoQuotes(c, user, iat);
    JoinAudience(c, "");
    var v := "\"" + (Escape(c.audience) + ("\"" + "}"));
    assert "" + AudienceText(c) == ",\"aud\"" + (":" + v);
    ColonLater(",\"aud\"", v);
    FoundAt(Payload(c, user, iat), PayloadPieces(c, user, iat), "aud", AudiencePieces(c, ""), v);
    assert SkipBlanks(v) == v;
    assert v[1..] == Escape(c.audience) + "\"" + "}";
    ReadEscaped(c.audience, "}");
  }

  // ---------------------------------------------------------------------
  // The verdict on a token's own claims
  // ---------------------------------------------------------------------

  /** The values the text search can cope with. */
  ghost predicate Readable(c: Config, user: string) {
    && user != "" && NoControl(user) && Tail(user) != "exp"
    && (c.issuer != "" ==> NoControl(c.issuer) && Tail(user) != "iss")
    && (c.audience != "" ==> NoControl(c.audience) && Tail(user) != "aud")
  }

  /** The verdict the clock alone decides. */
  function ClockVerdict(c: Config, user: string, iat: int, now: int): Verdict {
    if iat + c.ttl != 0 && now > iat + c.ttl + c.leeway then Rejected("token_expired")
    else if iat != 0 && now + c.leeway < iat then Rejected("token_not_yet_valid")
    else Accepted(user)
  }

  lemma ReadClaims(c: Config, user: string, iat: int)
    ensures GetInt(Payload(c, user, iat), "iat") == iat
    ensures GetInt(Payload(c, user, iat), "exp") == if Tail(user) == "exp" then iat else iat + c.ttl
    ensures GetString(Payload(c, user, iat), "sub") == user <==> NoControl(user)
    ensures c.issuer != "" ==>
              (GetString(Payload(c, user, iat), "iss") == c.issuer <==> NoControl(c.issuer) && Tail(user) != "iss")
    ensures c.audience != "" ==>
              (GetString(Payload(c, user, iat), "aud") == c.audience <==> NoControl(c.audience) && Tail(user) != "aud")
  {
    hide *;
    IatClaim(c, user, iat);
    ExpClaim(c, user, iat);
    SubClaim(c, user, iat);
    StrippedExactly(user);
    if c.issuer != "" {
      IssClaim(c, user, iat);
      StrippedExactly(c.issuer);
    }
    if c.audience != "" {
      AudClaim(c, user, iat);
      StrippedExactly(c.audience);
    }
  }

  /** For readable values the claims come back as written, so only the clock matters. */
  lemma ClaimsVerdict(c: Config, user: string, iat: int, now: int)
    requires Readable(c, user)
    ensures CheckClaims(c, Payload(c, user, iat), now) == ClockVerdict(c, user, iat, now)
  {
    hide Payload;
    hide GetInt;
    hide GetString;
    hide NoControl;
    hide Tail;
    ReadClaims(c, user, iat);
  }

  ghost predicate AcceptedAllTheTime(c: Config, user: string, iat: int) {
    forall now :: iat - c.leeway <= now <= iat + c.ttl + c.leeway ==>
      CheckClaims(c, Payload(c, user, iat), now) == Accepted(user)
  }

  /**
   * A token's claims are accepted with the right user throughout its life, leeway included, if and only
   * if they are readable.
   */
  lemma AcceptedExactly(c: Config, user: string, iat: int)
    requires iat > 0 && c.ttl > 0 && c.leeway >= 0
    ensures AcceptedAllTheTime(c, user, iat) <==> Readable(c, user)
  {
    hide Payload;
    hide GetInt;
    hide GetString;
    hide NoControl;
    hide Tail;
    if Readable(c, user) {
      forall now | iat - c.leeway <= now <= iat + c.ttl + c.leeway
        ensures CheckClaims(c, Payload(c, user, iat), now) == Accepted(user)
      {
        ClaimsVerdict(c, user, iat, now);
      }
    }
    if AcceptedAllTheTime(c, user, iat) {
      ReadClaims(c, user, iat);
      assert CheckClaims(c, Payload(c, user, iat), iat + c.ttl + c.leeway) == Accepted(user);
    }
  }

  // ---------------------------------------------------------------------
  // Tokens
  // ---------------------------------------------------------------------

  type Mac = (string, string) -> seq<byte>

  const HEADER := "{\"alg\":\"HS256\",\"typ\":\"JWT\"}"

  /** The bytes of a string of 8-bit characters. */
  function Octets(s: string): (b: seq<byte>)
    ensures |b| == |s|
  {
    seq(|s|, i requires 0 <= i < |s| => s[i] as int % 256)
  }

  function FromOctets(b: seq<byte>): (s: string)
    ensures |s| == |b|
  {
    seq(|b|, i requires 0 <= i < |b| => b[i] as char)
  }

  ghost predicate EightBit(s: string) {
    forall i :: 0 <= i < |s| ==> s[i] as int < 256
  }

  function SigningInput(c: Config, user: string, iat: int): string {
    Base64Url.Encode(Octets(HEADER)) + "." + Base64Url.Encode(Octets(Payload(c, user, iat)))
  }

  function Create(c: Config, user: string, iat: int, mac: Mac): string {
    SigningInput(c, user, iat) + "." + Base64Url.Encode(mac(c.secret, SigningInput(c, user, iat)))
  }

  /** Position of the first dot from `from` on, or the length. */
  function Dot(s: string, from: nat): (p: nat)
    requires from <= |s|
    ensures from <= p <= |s| && (p < |s| ==> s[p] == '.')
    decreases |s| - from
  {
    if from == |s| || s[from] == '.' then from else Dot(s, from + 1)
  }

  function Verify(c: Config, token: string, now: int, mac: Mac): Verdict {
    var dot1 := Dot(token, 0);
    if dot1 == |token| then Rejected("invalid_token_format")
    else
      var dot2 := Dot(token, dot1 + 1);
      if dot2 == |token| then Rejected("invalid_token_format")
      else if mac(c.secret, token[..dot2]) != Base64Url.Decode(token[dot2 + 1..]) then Rejected("invalid_signature")
      else CheckClaims(c, FromOctets(Base64Url.Decode(token[dot1 + 1..dot2])), now)
  }

  lemma {:induction false} DotAfter(x: string, y: string, z: string)
    requires forall i :: 0 <= i < |y| ==> y[i] != '.'
    ensures Dot(x + y + "." + z, |x|) == |x| + |y|
    decreases |y|
  {
    var s := x + y + "." + z;
    if y != [] {
      assert s[|x|] == y[0];
      assert s == (x + [y[0]]) + y[1..] + "." + z;
      DotAfter(x + [y[0]], y[1..], z);
    } else {
      assert s[|x|] == '.';
    }
  }

  lemma NoDots(data: seq<byte>)
    ensures forall i :: 0 <= i < |Base64Url.Encode(data)| ==> Base64Url.Encode(data)[i] != '.'
  {
    forall i | 0 <= i < |Base64Url.Encode(data)| ensures Base64Url.Encode(data)[i] != '.' {
      Base64Url.CharsInAlphabet(Base64Url.ByteBits(data), i);
    }
  }

  /** Splitting a token at its first two dots. */
  lemma SplitsAtDots(h: string, p: string, s: string)
    requires forall i :: 0 <= i < |h| ==> h[i] != '.'
    requires forall i :: 0 <= i < |p| ==> p[i] != '.'
    ensures Dot(h + "." + p + "." + s, 0) == |h|
    ensures Dot(h + "." + p + "." + s, |h| + 1) == |h| + 1 + |p|
    ensures (h + "." + p + "." + s)[..|h| + 1 + |p|] == h + "." + p
    ensures (h + "." + p + "." + s)[|h| + 1..|h| + 1 + |p|] == p
    ensures (h + "." + p + "." + s)[|h| + 1 + |p| + 1..] == s
  {
    var token := h + "." + p + "." + s;
    assert token == "" + h + "." + (p + "." + s);
    DotAfter("", h, p + "." + s);
    assert token == (h + ".") + p + "." + s;
    DotAfter(h + ".", p, s);
  }

  lemma EightBitConcat(a: string, b: string)
    requires EightBit(a) && EightBit(b)
    ensures EightBit(a + b)
  {
  }

  lemma {:induction false} EscapeEightBit(u: string)
    requires EightBit(u)
    ensures EightBit(Escape(u))
  {
    if u != [] {
      EscapeEightBit(u[1..]);
    }
  }

  lemma PayloadEightBit(c: Config, user: string, iat: int)
    requires EightBit(user) && EightBit(c.issuer) && EightBit(c.audience)
    ensures EightBit(Payload(c, user, iat))
  {
    hide Escape;
    hide Decimal.Signed;
    EscapeEightBit(user);
    EscapeEightBit(c.issuer);
    EscapeEightBit(c.audience);
    SignedEightBit(iat);
    SignedEightBit(iat + c.ttl);
    assert EightBit(AudienceText(c));
    assert EightBit(IssuerText(c));
    var m := Decimal.Signed(iat + c.ttl) + IssuerText(c);
    EightBitConcat(",\"exp\":", m);
    var n := Decimal.Signed(iat) + (",\"exp\":" + m);
    EightBitConcat(",\"iat\":", n);
    EightBitConcat("\"", ",\"iat\":" + n);
    EightBitConcat(Escape(user), "\"" + (",\"iat\":" + n));
    EightBitConcat("{\"sub\":\"", Escape(user) + ("\"" + (",\"iat\":" + n)));
  }

  lemma SignedEightBit(n: int)
    ensures EightBit(Decimal.Signed(n))
  {
  }

  lemma OctetsBack(s: string)
    requires EightBit(s)
    ensures FromOctets(Octets(s)) == s
  {
  }

  /** A token verified under its own configuration is judged by its claims alone. */
  lemma OwnTokenVerdict(c: Config, user: string, iat: int, now: int, mac: Mac)
    requires EightBit(user) && EightBit(c.issuer) && EightBit(c.audience)
    ensures Verify(c, Create(c, user, iat, mac), now, mac) == CheckClaims(c, Payload(c, user, iat), now)
  {
    hide Payload;
    hide CheckClaims;
    hide Base64Url.Encode;
    hide Base64Url.Decode;
    hide Octets;
    hide FromOctets;
    hide Dot;
    var h, p := Base64Url.Encode(Octets(HEADER)), Base64Url.Encode(Octets(Payload(c, user, iat)));
    var sig := mac(c.secret, h + "." + p);
    NoDots(Octets(HEADER));
    NoDots(Octets(Payload(c, user, iat)));
    SplitsAtDots(h, p, Base64Url.Encode(sig));
    Base64Url.RoundTrip(sig);
    Base64Url.RoundTrip(Octets(Payload(c, user, iat)));
    PayloadEightBit(c, user, iat);
    OctetsBack(Payload(c, user, iat));
  }

  /**
   * Token round trip: with readable values, verify accepts what create made and returns the same user at
   * every clock from iat - leeway to exp + leeway, and rejects it before and after.
   */
  lemma TokenRoundTrip(c: Config, user: string, iat: int, now: int, mac: Mac)
    requires EightBit(user) && EightBit(c.issuer) && EightBit(c.audience)
    requires Readable(c, user)
    ensures Verify(c, Create(c, user, iat, mac), now, mac) == ClockVerdict(c, user, iat, now)
    ensures iat - c.leeway <= now <= iat + c.ttl + c.leeway ==>
              Verify(c, Create(c, user, iat, mac), now, mac) == Accepted(user)
  {
    hide *;
    OwnTokenVerdict(c, user, iat, now, mac);
    ClaimsVerdict(c, user, iat, now);
    InsideTheWindow(c, user, iat, now);
  }

  lemma InsideTheWindow(c: Config, user: string, iat: int, now: int)
    ensures iat - c.leeway <= now <= iat + c.ttl + c.leeway ==> ClockVerdict(c, user, iat, now) == Accepted(user)
  {
  }

  /** A token is accepted throughout its life, with the right user, if and only if its values are readable. */
  lemma TokenAcceptedExactly(c: Config, user: string, iat: int, mac: Mac)
    requires EightBit(user) && EightBit(c.issuer) && EightBit(c.audience)
    requires iat > 0 && c.ttl > 0 && c.leeway >= 0
    ensures (forall now :: iat - c.leeway <= now <= iat + c.ttl + c.leeway ==>
               Verify(c, Create(c, user, iat, mac), now, mac) == Accepted(user))
            <==> Readable(c, user)
  {
    hide Verify;
    hide Create;
    hide CheckClaims;
    hide Payload;
    hide Readable;
    AcceptedExactly(c, user, iat);
    forall now ensures Verify(c, Create(c, user, iat, mac), now, mac) == CheckClaims(c, Payload(c, user, iat), now) {
      OwnTokenVerdict(c, user, iat, now, mac);
    }
  }

  /** A user named like a claim is cut off when the token is older than its leeway, long before it expires. */
  lemma UserNamedExp(c: Config, iat: int, now: int, mac: Mac)
    requires EightBit(c.issuer) && EightBit(c.audience) && iat > 0 && now > iat + c.leeway
    ensures Verify(c, Create(c, "exp", iat, mac), now, mac) == Rejected("token_expired")
  {
    hide Payload;
    hide GetInt;
    hide GetString;
    hide Verify;
    hide Create;
    assert '"' !in "exp";
    assert Tail("exp") == "exp";
    ExpClaim(c, "exp", iat);
    OwnTokenVerdict(c, "exp", iat, now, mac);
  }
}
