/** The SQL mapper: named parameters to '?' placeholders, and on to the numbered ones of PostgreSQL. */
module SqlMapper {
  import opened Collections
  import Decimal

  // ---------------------------------------------------------------------
  // Values
  // ---------------------------------------------------------------------

  datatype LuaValue = Nil | Text(s: string) | Number(n: int) | Table(at: map<string, LuaValue>)

  function Walk(v: LuaValue, parts: seq<string>): LuaValue
    decreases |parts|
  {
    if parts == [] then v
    else if !v.Table? then Nil
    else Walk(if parts[0] in v.at then v.at[parts[0]] else Nil, parts[1..])
  }

  /** What a path binds: the resolved value, with an empty string for nil. */
  function Bound(params: LuaValue, path: string): LuaValue {
    var v := Walk(params, Split(path));
    if v == Nil then Text("") else v
  }

  // ---------------------------------------------------------------------
  // compile_sql
  // ---------------------------------------------------------------------

  datatype Token = Lit(c: char) | Param(path: string)

  predicate PathChar(c: char) {
    'a' <= c <= 'z' || 'A' <= c <= 'Z' || '0' <= c <= '9' || c == '_' || c == '.'
  }

  function PathRun(s: string): (r: string)
    ensures |r| <= |s|
  {
    if s == [] || !PathChar(s[0]) then [] else [s[0]] + PathRun(s[1..])
  }

  /** A named parameter at the start of s: "#{", path characters, "}". */
  function ParamAt(s: string): (path: string)
    ensures path != [] ==> |path| + 3 <= |s|
  {
    if "#{" <= s && |PathRun(s[2..])| > 0 && |PathRun(s[2..])| + 2 < |s| && s[|PathRun(s[2..])| + 2] == '}'
    then PathRun(s[2..]) else []
  }

  function Scan(sql: string): seq<Token>
    decreases |sql|
  {
    if sql == [] then []
    else
      var path := ParamAt(sql);
      if path != [] then [Param(path)] + Scan(sql[|path| + 3..]) else [Lit(sql[0])] + Scan(sql[1..])
  }

  function Compiled(tokens: seq<Token>): string {
    if tokens == [] then [] else [if tokens[0].Lit? then tokens[0].c else '?'] + Compiled(tokens[1..])
  }

  function Values(tokens: seq<Token>, params: LuaValue): seq<LuaValue> {
    if tokens == [] then []
    else (if tokens[0].Param? then [Bound(params, tokens[0].path)] else []) + Values(tokens[1..], params)
  }

  datatype Statement = Statement(sql: string, values: seq<LuaValue>) | Unsafe(message: string)

  predicate Contains(s: string, part: string) {
    exists i :: 0 <= i < |s| && part <= s[i..]
  }

  function Compile(sql: string, params: LuaValue): Statement {
    var text := Compiled(Scan(sql));
    if Contains(text, "${") then Unsafe("raw SQL substitution is not supported")
    else if Contains(text, ";") then Unsafe("mapper statement must contain one SQL statement")
    else Statement(text, Values(Scan(sql), params))
  }

  lemma {:induction false} CompiledShape(tokens: seq<Token>)
    ensures |Compiled(tokens)| == |tokens|
    ensures forall i :: 0 <= i < |tokens| ==> Compiled(tokens)[i] == if tokens[i].Lit? then tokens[i].c else '?'
  {
    if tokens != [] {
      CompiledShape(tokens[1..]);
    }
  }

  lemma SemicolonExactly(tokens: seq<Token>)
    ensures Contains(Compiled(tokens), ";") <==> Lit(';') in tokens
  {
    hide Compiled;
    CompiledShape(tokens);
    var text := Compiled(tokens);
    if i :| 0 <= i < |text| && ";" <= text[i..] {
      assert text[i..][0] == ';' && tokens[i] == Lit(';');
    }
    if i :| 0 <= i < |tokens| && tokens[i] == Lit(';') {
      assert ";" <= text[i..];
    }
  }

  /** A dollar sign followed by a brace, both written out. */
  predicate RawAt(tokens: seq<Token>, i: nat) {
    i + 1 < |tokens| && tokens[i] == Lit('$') && tokens[i + 1] == Lit('{')
  }

  lemma RawExactly(tokens: seq<Token>)
    ensures Contains(Compiled(tokens), "${") <==> exists i: nat :: RawAt(tokens, i)
  {
    hide Compiled;
    CompiledShape(tokens);
    var text := Compiled(tokens);
    if i :| 0 <= i < |text| && "${" <= text[i..] {
      assert text[i..][0] == '$' && text[i..][1] == '{';
      assert RawAt(tokens, i);
    }
    if i: nat :| RawAt(tokens, i) {
      assert text[i] == '$' && text[i + 1] == '{';
      assert "${" <= text[i..];
    }
  }

  /** A statement is refused exactly for a literal "${" or a literal semicolon outside its parameters. */
  lemma RefusedExactly(sql: string, params: LuaValue)
    ensures Compile(sql, params).Unsafe? <==> Lit(';') in Scan(sql) || exists i: nat :: RawAt(Scan(sql), i)
  {
    hide Scan, Compiled, Values, Contains, RawAt;
    SemicolonExactly(Scan(sql));
    RawExactly(Scan(sql));
  }

  method Find(s: string, part: string) returns (found: bool)
    ensures found == Contains(s, part)
  {
    for i := 0 to |s|
      invariant forall j :: 0 <= j < i ==> !(part <= s[j..])
    {
      if part <= s[i..] {
        return true;
      }
    }
    found := false;
  }

  /** compile_sql: the substitution and the two refusals. */
  method CompileSql(sql: string, params: LuaValue) returns (statement: Statement)
    ensures statement == Compile(sql, params)
  {
    hide Contains, Scan, Compiled, Values;
    var text, values := CompileLoop(sql, params);
    var raw := Find(text, "${");
    if raw {
      return Unsafe("raw SQL substitution is not supported");
    }
    var several := Find(text, ";");
    if several {
      return Unsafe("mapper statement must contain one SQL statement");
    }
    statement := Statement(text, values);
  }

  /** One step of the scan: a parameter, or one character. */
  lemma ScanStep(sql: string, params: LuaValue)
    requires sql != []
    ensures ParamAt(sql) != [] ==>
              && Compiled(Scan(sql)) == ['?'] + Compiled(Scan(sql[|ParamAt(sql)| + 3..]))
              && Values(Scan(sql), params) ==
                 [Bound(params, ParamAt(sql))] + Values(Scan(sql[|ParamAt(sql)| + 3..]), params)
    ensures ParamAt(sql) == [] ==>
              && Compiled(Scan(sql)) == [sql[0]] + Compiled(Scan(sql[1..]))
              && Values(Scan(sql), params) == Values(Scan(sql[1..]), params)
  {
    hide Bound;
    hide ParamAt;
    var tokens := Scan(sql);
    if ParamAt(sql) != [] {
      assert tokens[1..] == Scan(sql[|ParamAt(sql)| + 3..]);
    } else {
      assert tokens[1..] == Scan(sql[1..]);
      assert [] + Values(tokens[1..], params) == Values(tokens[1..], params);
    }
  }

  /** The gsub loop with its callback; the text does not depend on the parameters. */
  method CompileLoop(sql: string, params: LuaValue) returns (text: string, values: seq<LuaValue>)
    ensures text == Compiled(Scan(sql)) && values == Values(Scan(sql), params)
  {
    text, values := [], [];
    var at := 0;
    hide *;
    assert sql[0..] == sql;
    while at < |sql|
      invariant at <= |sql|
      invariant text + Compiled(Scan(sql[at..])) == Compiled(Scan(sql))
      invariant values + Values(Scan(sql[at..]), params) == Values(Scan(sql), params)
      decreases |sql| - at
    {
      var path := ParamAt(sql[at..]);
      ScanStep(sql[at..], params);
      if path != [] {
        assert sql[at..][|path| + 3..] == sql[at + |path| + 3..];
        text := text + ['?'];
        values := values + [Bound(params, path)];
        at := at + |path| + 3;
      } else {
        assert sql[at..][1..] == sql[at + 1..];
        text := text + [sql[at]];
        at := at + 1;
      }
    }
    EmptyScan(params);
    assert sql[at..] == [];
  }

  lemma EmptyScan(params: LuaValue)
    ensures Scan([]) == [] && Compiled([]) == [] && Values([], params) == []
  {
  }

  // ---------------------------------------------------------------------
  // rewrite_placeholders
  // ---------------------------------------------------------------------

  function Rewrite(s: string, index: nat): string {
    if s == [] then []
    else if s[0] == '?' then "$" + Decimal.Text(index + 1) + Rewrite(s[1..], index + 1)
    else [s[0]] + Rewrite(s[1..], index)
  }

  method RewritePlaceholders(s: string) returns (out: string)
    ensures out == Rewrite(s, 0)
  {
    out := [];
    var index := 0;
    hide Rewrite, Decimal.Text;
    assert s[0..] == s;
    for i := 0 to |s|
      invariant index >= 0 && out + Rewrite(s[i..], index) == Rewrite(s, 0)
    {
      RewriteStep(s, i, index);
      if s[i] == '?' {
        index := index + 1;
        assert out + ("$" + Decimal.Text(index) + Rewrite(s[i + 1..], index)) ==
               (out + ['$'] + Decimal.Text(index)) + Rewrite(s[i + 1..], index);
        out := out + ['$'] + Decimal.Text(index);
      } else {
        out := out + [s[i]];
      }
    }
    NothingToRewrite(index);
    assert s[|s|..] == [];
  }

  lemma RewriteStep(s: string, i: nat, index: nat)
    requires i < |s|
    ensures Rewrite(s[i..], index) ==
            if s[i] == '?' then "$" + Decimal.Text(index + 1) + Rewrite(s[i + 1..], index + 1)
            else [s[i]] + Rewrite(s[i + 1..], index)
  {
    hide Decimal.Text;
    assert s[i..][1..] == s[i + 1..];
  }

  lemma NothingToRewrite(index: nat)
    ensures Rewrite([], index) == []
  {
  }

  // ---------------------------------------------------------------------
  // How the database reads the text
  // ---------------------------------------------------------------------

  /** PostgreSQL: a dollar sign and the digits after it name a parameter, where the lexer is open for one. */
  datatype PgToken = PgLit(c: char) | PgRef(n: nat)

  /** Where PostgreSQL's lexer stands between two characters. */
  datatype PgMode =
    | Plain
    | Word(escape: bool)                        // in a name or keyword; `escape` if it is the letter E so far
    | Quoted(escape: bool, skip: bool)          // in '...', with backslash escapes after E
    | QuoteEnd(escape: bool)                    // right after a closing quote, which another quote takes back
    | Ident                                     // in "..."
    | Dash                                      // after one dash
    | LineComment
    | Slash                                     // after one slash
    | Block(depth: nat, last: char)             // in nested /* ... */
    | Tag(tag: string)                          // after a dollar sign that may open a dollar quote
    | Inside(tag: string, end: Option<string>)  // in a dollar quote, with what there is of a closing tag

  predicate WordStart(c: char) {
    'a' <= c <= 'z' || 'A' <= c <= 'Z' || c == '_' || c as int >= 128
  }

  /** The tag of a dollar quote is a word without dollar signs. */
  predicate TagChar(tag: string, c: char) {
    WordStart(c) || (tag != [] && Decimal.IsDigit(c))
  }

  predicate IsE(word: string) {
    word == "e" || word == "E"
  }

  function PlainNext(c: char): PgMode {
    if c == '\'' then Quoted(false, false)
    else if c == '"' then Ident
    else if c == '-' then Dash
    else if c == '/' then Slash
    else if c == '$' then Tag([])
    else if WordStart(c) then Word(IsE([c]))
    else Plain
  }

  function WordNext(escape: bool, c: char): PgMode {
    if escape && c == '\'' then Quoted(true, false)
    else if WordStart(c) || Decimal.IsDigit(c) || c == '$' then Word(false)
    else PlainNext(c)
  }

  function QuotedNext(escape: bool, skip: bool, c: char): PgMode {
    if skip then Quoted(escape, false)
    else if escape && c == '\\' then Quoted(escape, true)
    else if c == '\'' then QuoteEnd(escape)
    else Quoted(escape, false)
  }

  function BlockNext(depth: nat, last: char, c: char): PgMode {
    if last == '*' && c == '/' then if depth <= 1 then Plain else Block(depth - 1, ' ')
    else if last == '/' && c == '*' then Block(depth + 1, ' ')
    else Block(depth, c)
  }

  function InsideNext(tag: string, end: Option<string>, c: char): PgMode {
    match end
    case None => Inside(tag, if c == '$' then Some([]) else None)
    case Some(t) =>
      if c == '$' then if t == tag then Plain else Inside(tag, Some([]))
      else Inside(tag, if TagChar(t, c) then Some(t + [c]) else None)
  }

  function PgNext(mode: PgMode, c: char): PgMode {
    match mode
    case Plain => PlainNext(c)
    case Word(escape) => WordNext(escape, c)
    case Quoted(escape, skip) => QuotedNext(escape, skip, c)
    case QuoteEnd(escape) => if c == '\'' then Quoted(escape, false) else PlainNext(c)
    case Ident => if c == '"' then Plain else Ident
    case Dash => if c == '-' then LineComment else PlainNext(c)
    case LineComment => if c == '\n' || c == '\r' then Plain else LineComment
    case Slash => if c == '*' then Block(1, ' ') else PlainNext(c)
    case Block(depth, last) => BlockNext(depth, last, c)
    case Tag(tag) =>
      if c == '$' then Inside(tag, None)
      else if TagChar(tag, c) then Tag(tag + [c])
      else if tag == [] then PlainNext(c)
      else WordNext(IsE(tag), c)
    case Inside(tag, end) => InsideNext(tag, end, c)
  }

  /** Whether a dollar sign with digits is a parameter here: outside words, quotes and comments. */
  predicate PgOpen(mode: PgMode) {
    mode.Plain? || mode.QuoteEnd? || mode.Dash? || mode.Slash?
  }

  function DigitRun(s: string): (d: string)
    ensures |d| <= |s| && Decimal.AllDigits(d) && d <= s
    ensures |d| < |s| ==> !Decimal.IsDigit(s[|d|])
  {
    if s == [] || !Decimal.IsDigit(s[0]) then [] else [s[0]] + DigitRun(s[1..])
  }

  function PgScan(s: string, mode: PgMode): seq<PgToken>
    decreases |s|
  {
    if s == [] then []
    else if s[0] == '$' && PgOpen(mode) && DigitRun(s[1..]) != [] then
      [PgRef(Decimal.Value(DigitRun(s[1..])))] + PgScan(s[1 + |DigitRun(s[1..])|..], Plain)
    else [PgLit(s[0])] + PgScan(s[1..], PgNext(mode, s[0]))
  }

  function PgText(tokens: seq<PgToken>): string {
    if tokens == [] then []
    else (if tokens[0].PgLit? then [tokens[0].c] else "$" + Decimal.Text(tokens[0].n)) + PgText(tokens[1..])
  }

  /** What the mapper means: the i-th named parameter is parameter number i. */
  function Numbered(tokens: seq<Token>, index: nat): seq<PgToken> {
    if tokens == [] then []
    else if tokens[0].Param? then [PgRef(index + 1)] + Numbered(tokens[1..], index + 1)
    else [PgLit(tokens[0].c)] + Numbered(tokens[1..], index)
  }

  /** What the rewriting does: literal question marks count as well. */
  function Rewritten(tokens: seq<Token>, index: nat): seq<PgToken> {
    if tokens == [] then []
    else if tokens[0].Param? || tokens[0].c == '?' then [PgRef(index + 1)] + Rewritten(tokens[1..], index + 1)
    else [PgLit(tokens[0].c)] + Rewritten(tokens[1..], index)
  }

  predicate NoQuestion(tokens: seq<Token>) {
    forall i :: 0 <= i < |tokens| ==> tokens[i] != Lit('?')
  }

  predicate StartsDigit(tokens: seq<Token>) {
    tokens != [] && tokens[0].Lit? && Decimal.IsDigit(tokens[0].c)
  }

  /**
   * Every parameter stands outside words, quotes and comments and has no digit right after it, and no
   * other dollar sign there has one. `mode` tells where the lexer stands before the first token.
   */
  predicate Separated(tokens: seq<Token>, mode: PgMode) {
    tokens == [] ||
    if tokens[0].Param? then PgOpen(mode) && !StartsDigit(tokens[1..]) && Separated(tokens[1..], Plain)
    else
      && !(tokens[0].c == '$' && PgOpen(mode) && StartsDigit(tokens[1..]))
      && Separated(tokens[1..], PgNext(mode, tokens[0].c))
  }

  predicate PgStartsDigit(tokens: seq<PgToken>) {
    tokens != [] && tokens[0].PgLit? && Decimal.IsDigit(tokens[0].c)
  }

  predicate PgSeparated(tokens: seq<PgToken>, mode: PgMode) {
    tokens == [] ||
    if tokens[0].PgRef? then PgOpen(mode) && !PgStartsDigit(tokens[1..]) && PgSeparated(tokens[1..], Plain)
    else
      && !(tokens[0].c == '$' && PgOpen(mode) && PgStartsDigit(tokens[1..]))
      && PgSeparated(tokens[1..], PgNext(mode, tokens[0].c))
  }

  lemma {:induction false} RewriteTokens(tokens: seq<Token>, index: nat)
    ensures Rewrite(Compiled(tokens), index) == PgText(Rewritten(tokens, index))
  {
    if tokens != [] {
      var question := tokens[0].Param? || tokens[0].c == '?';
      assert Compiled(tokens)[1..] == Compiled(tokens[1..]);
      RewriteTokens(tokens[1..], if question then index + 1 else index);
    }
  }

  lemma {:induction false} NoQuestionRewritten(tokens: seq<Token>, index: nat)
    requires NoQuestion(tokens)
    ensures Rewritten(tokens, index) == Numbered(tokens, index)
  {
    if tokens != [] {
      NoQuestionRewritten(tokens[1..], if tokens[0].Param? then index + 1 else index);
    }
  }

  /** Parameters are numbered from 1. */
  ghost predicate Positive(tokens: seq<PgToken>) {
    forall i :: 0 <= i < |tokens| && tokens[i].PgRef? ==> tokens[i].n > 0
  }

  lemma {:induction false} DigitRunOf(d: string, s: string)
    requires Decimal.AllDigits(d)
    ensures DigitRun(d + s) == d + DigitRun(s)
  {
    if d == [] {
      assert d + s == s;
    } else {
      assert (d + s)[1..] == d[1..] + s;
      DigitRunOf(d[1..], s);
    }
  }

  /** The text of a token list starts with a digit exactly when its first token is one. */
  lemma StartsWithDigit(tokens: seq<PgToken>)
    ensures DigitRun(PgText(tokens)) != [] <==> PgStartsDigit(tokens)
  {
  }

  lemma PgHeadLit(c: char, rest: seq<PgToken>, mode: PgMode)
    ensures if c == '$' && PgOpen(mode) && PgStartsDigit(rest) then PgScan(PgText([PgLit(c)] + rest), mode)[0].PgRef?
            else PgScan(PgText([PgLit(c)] + rest), mode) == [PgLit(c)] + PgScan(PgText(rest), PgNext(mode, c))
  {
    hide PgNext, PgOpen;
    StartsWithDigit(rest);
    assert ([PgLit(c)] + rest)[1..] == rest;
    var s := [c] + PgText(rest);
    assert s[1..] == PgText(rest);
    hide DigitRun, PgText, Decimal.Value;
  }

  lemma PgScanDollar(s: string, d: string, mode: PgMode)
    requires s != [] && s[0] == '$' && d == DigitRun(s[1..]) && d != [] && PgOpen(mode)
    ensures PgScan(s, mode) == [PgRef(Decimal.Value(d))] + PgScan(s[1 + |d|..], Plain)
  {
    hide DigitRun, Decimal.Value, Decimal.AllDigits, PgNext, PgOpen;
    assert s != [] && s[0] == '$' && DigitRun(s[1..]) != [];
  }

  /** A dollar sign with digits reads as one parameter, together with all digits that follow. */
  lemma DollarScan(t: string, u: string, mode: PgMode)
    requires t != [] && Decimal.AllDigits(t) && PgOpen(mode)
    ensures Decimal.AllDigits(t + DigitRun(u))
    ensures PgScan("$" + t + u, mode) == [PgRef(Decimal.Value(t + DigitRun(u)))] + PgScan(u[|DigitRun(u)|..], Plain)
  {
    hide PgScan, PgOpen;
    hide DigitRun;
    hide Decimal.Value;
    var s, d := "$" + t + u, t + DigitRun(u);
    assert s[1..] == t + u;
    DigitRunOf(t, u);
    PgScanDollar(s, d, mode);
    assert s[1 + |d|..] == u[|DigitRun(u)|..];
  }

  lemma PgHeadRef(n: nat, rest: seq<PgToken>, mode: PgMode)
    requires n > 0 && PgOpen(mode)
    ensures if PgStartsDigit(rest) then PgScan(PgText([PgRef(n)] + rest), mode)[0] != PgRef(n)
            else PgScan(PgText([PgRef(n)] + rest), mode) == [PgRef(n)] + PgScan(PgText(rest), Plain)
  {
    hide PgScan, PgOpen;
    hide Decimal.Value;
    hide Decimal.Text;
    StartsWithDigit(rest);
    assert ([PgRef(n)] + rest)[1..] == rest;
    var t, u := Decimal.Text(n), PgText(rest);
    DollarScan(t, u, mode);
    Decimal.ValueOfText(n);
    if DigitRun(u) != [] {
      Decimal.LongerIsLarger(t, DigitRun(u));
    } else {
      assert t + [] == t && u[0..] == u;
    }
  }

  /** Inside a word, a quote or a comment a reference is read as text. */
  lemma PgRefInText(n: nat, rest: seq<PgToken>, mode: PgMode)
    requires !PgOpen(mode)
    ensures PgScan(PgText([PgRef(n)] + rest), mode) != []
    ensures PgScan(PgText([PgRef(n)] + rest), mode)[0] == PgLit('$')
  {
    hide Decimal.Text, PgNext, PgOpen;
    assert PgText([PgRef(n)] + rest)[0] == '$';
  }

  /** PostgreSQL reads the tokens back exactly when they are separated. */
  lemma {:induction false} PgRoundTrip(tokens: seq<PgToken>, mode: PgMode)
    requires Positive(tokens)
    ensures PgScan(PgText(tokens), mode) == tokens <==> PgSeparated(tokens, mode)
  {
    hide PgNext, PgOpen;
    if tokens != [] {
      hide PgText, PgScan;
      var rest := tokens[1..];
      assert tokens == [tokens[0]] + rest;
      if tokens[0].PgLit? {
        PgRoundTrip(rest, PgNext(mode, tokens[0].c));
        PgHeadLit(tokens[0].c, rest, mode);
        TailsAgree(tokens, PgScan(PgText(rest), PgNext(mode, tokens[0].c)));
      } else if !PgOpen(mode) {
        PgRefInText(tokens[0].n, rest, mode);
      } else {
        PgRoundTrip(rest, Plain);
        PgHeadRef(tokens[0].n, rest, mode);
        TailsAgree(tokens, PgScan(PgText(rest), Plain));
      }
    } else {
      assert PgText([]) == [];
    }
  }

  lemma TailsAgree(tokens: seq<PgToken>, rest: seq<PgToken>)
    requires tokens != []
    ensures [tokens[0]] + rest == tokens <==> rest == tokens[1..]
  {
    assert ([tokens[0]] + rest)[1..] == rest;
  }

  // ---------------------------------------------------------------------
  // The pipeline preserves the meaning of the statement
  // ---------------------------------------------------------------------

  lemma {:induction false} NumberedShape(tokens: seq<Token>, index: nat)
    ensures |Numbered(tokens, index)| == |tokens| && Positive(Numbered(tokens, index))
    ensures forall i :: 0 <= i < |tokens| ==>
              if tokens[i].Lit? then Numbered(tokens, index)[i] == PgLit(tokens[i].c)
              else Numbered(tokens, index)[i].PgRef?
  {
    if tokens != [] {
      var next := if tokens[0].Param? then index + 1 else index;
      NumberedShape(tokens[1..], next);
      var rest, all := Numbered(tokens[1..], next), Numbered(tokens, index);
      assert forall i :: 0 < i < |all| ==> all[i] == rest[i - 1];
    }
  }

  lemma {:induction false} NumberedSeparated(tokens: seq<Token>, index: nat, mode: PgMode)
    ensures PgSeparated(Numbered(tokens, index), mode) <==> Separated(tokens, mode)
  {
    hide PgNext, PgOpen;
    if tokens != [] {
      var next := if tokens[0].Param? then index + 1 else index;
      assert Numbered(tokens, index)[1..] == Numbered(tokens[1..], next);
      assert PgStartsDigit(Numbered(tokens[1..], next)) <==> StartsDigit(tokens[1..]);
      NumberedSeparated(tokens[1..], next, if tokens[0].Param? then Plain else PgNext(mode, tokens[0].c));
    }
  }

  lemma {:induction false} PgScanLiterals(s: string, mode: PgMode, i: nat)
    requires i < |PgScan(s, mode)| && PgScan(s, mode)[i].PgLit?
    ensures PgScan(s, mode)[i].c in s
    decreases |s|
  {
    hide DigitRun;
    hide Decimal.Value;
    hide PgNext, PgOpen;
    if i > 0 {
      if s[0] == '$' && PgOpen(mode) && DigitRun(s[1..]) != [] {
        PgScanLiterals(s[1 + |DigitRun(s[1..])|..], Plain, i - 1);
      } else {
        PgScanLiterals(s[1..], PgNext(mode, s[0]), i - 1);
      }
    }
  }

  lemma {:induction false} RewrittenHasNoQuestion(tokens: seq<Token>, index: nat)
    ensures '?' !in PgText(Rewritten(tokens, index))
  {
    if tokens != [] {
      var question := tokens[0].Param? || tokens[0].c == '?';
      RewrittenHasNoQuestion(tokens[1..], if question then index + 1 else index);
      TextHasNoQuestion(index + 1);
    }
  }

  lemma TextHasNoQuestion(n: nat)
    ensures '?' !in Decimal.Text(n)
  {
    assert !Decimal.IsDigit('?');
  }

  /**
   * PostgreSQL reads the compiled and rewritten text as $1 .. $n in the order of the named parameters,
   * and everything else as written, if and only if the SQL has no literal question mark anywhere, no
   * parameter inside a quote or comment or right after a word, and no digit right after a parameter or
   * after a dollar sign that stands on its own.
   */
  lemma PgReadsExactly(sql: string)
    ensures PgScan(Rewrite(Compiled(Scan(sql)), 0), Plain) == Numbered(Scan(sql), 0)
            <==> NoQuestion(Scan(sql)) && Separated(Scan(sql), Plain)
  {
    hide Scan;
    hide PgScan;
    hide PgText;
    hide Rewrite;
    hide Compiled;
    hide Numbered;
    hide Separated;
    hide PgSeparated;
    var tokens := Scan(sql);
    var read := PgScan(Rewrite(Compiled(tokens), 0), Plain);
    RewriteTokens(tokens, 0);
    NumberedShape(tokens, 0);
    if NoQuestion(tokens) {
      NoQuestionRewritten(tokens, 0);
      PgRoundTrip(Numbered(tokens, 0), Plain);
      NumberedSeparated(tokens, 0, Plain);
    } else if read == Numbered(tokens, 0) {
      var i :| 0 <= i < |tokens| && tokens[i] == Lit('?');
      RewrittenHasNoQuestion(tokens, 0);
      PgScanLiterals(Rewrite(Compiled(tokens), 0), Plain, i);
      assert false;
    }
  }

  /** A statement as characters and bound values. */
  datatype Item = Char(c: char) | Value(v: LuaValue) | Unbound

  /** What the statement means: each named parameter stands for its resolved value. */
  function Named(tokens: seq<Token>, params: LuaValue): seq<Item> {
    if tokens == [] then []
    else
      var item := if tokens[0].Lit? then Char(tokens[0].c) else Value(Bound(params, tokens[0].path));
      [item] + Named(tokens[1..], params)
  }

  function ValueAt(values: seq<LuaValue>, n: nat): Item {
    if 1 <= n <= |values| then Value(values[n - 1]) else Unbound
  }

  /** PostgreSQL binds parameter n to the n-th value. */
  function PgItems(tokens: seq<PgToken>, values: seq<LuaValue>): seq<Item> {
    if tokens == [] then []
    else [if tokens[0].PgLit? then Char(tokens[0].c) else ValueAt(values, tokens[0].n)] + PgItems(tokens[1..], values)
  }

  /** Where MySQL stands between two characters. */
  datatype MyMode =
    | MyPlain
    | MyQuoted(quote: char, skip: bool)   // in '...' or "...", with backslash escapes
    | MyName                              // in `...`
    | MyDash                              // after one dash
    | MyDashes                            // after two
    | MyLine                              // in a comment to the end of the line
    | MySlash                             // after one slash
    | MyBlock(star: bool)                 // in /* ... */, which does not nest

  function MyPlainNext(c: char): MyMode {
    if c == '\'' || c == '"' then MyQuoted(c, false)
    else if c == '`' then MyName
    else if c == '#' then MyLine
    else if c == '-' then MyDash
    else if c == '/' then MySlash
    else MyPlain
  }

  function MyQuotedNext(quote: char, skip: bool, c: char): MyMode {
    if skip then MyQuoted(quote, false)
    else if c == '\\' then MyQuoted(quote, true)
    else if c == quote then MyPlain
    else MyQuoted(quote, false)
  }

  /** Two dashes open a comment only before a blank. */
  function MyDashesNext(c: char): MyMode {
    if c == '-' then MyDashes
    else if c == '\n' then MyPlain
    else if c as int <= 32 then MyLine
    else MyPlainNext(c)
  }

  function MyNext(mode: MyMode, c: char): MyMode {
    match mode
    case MyPlain => MyPlainNext(c)
    case MyQuoted(quote, skip) => MyQuotedNext(quote, skip, c)
    case MyName => if c == '`' then MyPlain else MyName
    case MyDash => if c == '-' then MyDashes else MyPlainNext(c)
    case MyDashes => MyDashesNext(c)
    case MyLine => if c == '\n' then MyPlain else MyLine
    case MySlash => if c == '*' then MyBlock(false) else MyPlainNext(c)
    case MyBlock(star) => if star && c == '/' then MyPlain else MyBlock(c == '*')
  }

  /** Whether a question mark is a placeholder here: outside quotes and comments. */
  predicate MyOpen(mode: MyMode) {
    mode.MyPlain? || mode.MyDash? || mode.MyDashes? || mode.MySlash?
  }

  /** MySQL binds the i-th placeholder to the i-th value. */
  function MyItems(text: string, values: seq<LuaValue>, index: nat, mode: MyMode): seq<Item> {
    if text == [] then []
    else if text[0] == '?' && MyOpen(mode) then
      [ValueAt(values, index + 1)] + MyItems(text[1..], values, index + 1, MyPlain)
    else [Char(text[0])] + MyItems(text[1..], values, index, MyNext(mode, text[0]))
  }

  /** Every parameter stands outside quotes and comments, and no literal question mark does. */
  predicate MySeparated(tokens: seq<Token>, mode: MyMode) {
    tokens == [] ||
    if tokens[0].Param? then MyOpen(mode) && MySeparated(tokens[1..], MyPlain)
    else !(tokens[0].c == '?' && MyOpen(mode)) && MySeparated(tokens[1..], MyNext(mode, tokens[0].c))
  }

  lemma ValuesTail(tokens: seq<Token>, params: LuaValue, values: seq<LuaValue>, index: nat)
    requires tokens != [] && index <= |values| && values[index..] == Values(tokens, params)
    ensures tokens[0].Param? ==>
              && index < |values| && values[index] == Bound(params, tokens[0].path)
              && values[index + 1..] == Values(tokens[1..], params)
    ensures tokens[0].Lit? ==> values[index..] == Values(tokens[1..], params)
  {
    hide Bound;
    var all := Values(tokens, params);
    if tokens[0].Param? {
      assert values[index] == values[index..][0] == all[0];
      assert values[index + 1..] == values[index..][1..] == all[1..];
    } else {
      assert [] + Values(tokens[1..], params) == Values(tokens[1..], params);
    }
  }

  lemma {:induction false} PgItemsAreNamed(tokens: seq<Token>, params: LuaValue, values: seq<LuaValue>, index: nat)
    requires index <= |values| && values[index..] == Values(tokens, params)
    ensures PgItems(Numbered(tokens, index), values) == Named(tokens, params)
    decreases |tokens|
  {
    hide Bound;
    hide Values;
    if tokens != [] {
      ValuesTail(tokens, params, values, index);
      var next := if tokens[0].Param? then index + 1 else index;
      assert Numbered(tokens, index)[1..] == Numbered(tokens[1..], next);
      PgItemsAreNamed(tokens[1..], params, values, next);
    }
  }

  /** PostgreSQL: positional substitution of the value list equals substitution by name. */
  lemma PgMeaningPreserved(sql: string, params: LuaValue)
    requires NoQuestion(Scan(sql)) && Separated(Scan(sql), Plain)
    ensures PgItems(PgScan(Rewrite(Compiled(Scan(sql)), 0), Plain), Values(Scan(sql), params)) ==
            Named(Scan(sql), params)
  {
    hide *;
    PgReadsExactly(sql);
    var values := Values(Scan(sql), params);
    assert values[0..] == values;
    PgItemsAreNamed(Scan(sql), params, values, 0);
  }

  lemma {:induction false} MyItemsExactly(tokens: seq<Token>, params: LuaValue, values: seq<LuaValue>, index: nat,
                                          mode: MyMode)
    requires index <= |values| && values[index..] == Values(tokens, params)
    ensures MyItems(Compiled(tokens), values, index, mode) == Named(tokens, params) <==> MySeparated(tokens, mode)
    decreases |tokens|
  {
    hide Bound, Values, MyNext, MyOpen;
    if tokens != [] {
      ValuesTail(tokens, params, values, index);
      var text, items := Compiled(tokens), MyItems(Compiled(tokens), values, index, mode);
      assert text[1..] == Compiled(tokens[1..]);
      assert Named(tokens, params)[1..] == Named(tokens[1..], params);
      var bound := tokens[0].Param?;
      if bound != (text[0] == '?' && MyOpen(mode)) {
        assert items[0] != Named(tokens, params)[0];
      } else {
        var next, index' := if bound then MyPlain else MyNext(mode, text[0]), if bound then index + 1 else index;
        MyItemsExactly(tokens[1..], params, values, index', next);
        assert items[1..] == MyItems(text[1..], values, index', next);
        assert items[0] == Named(tokens, params)[0];
        HeadAndTail(items, Named(tokens, params));
      }
    }
  }

  lemma HeadAndTail(a: seq<Item>, b: seq<Item>)
    requires a != [] && b != [] && a[0] == b[0]
    ensures a == b <==> a[1..] == b[1..]
  {
    assert a == [a[0]] + a[1..] && b == [b[0]] + b[1..];
  }

  /**
   * MySQL: substitution at the placeholders equals substitution by name if and only if no literal question
   * mark stands outside quotes and comments and no parameter inside them.
   */
  lemma MyMeaningExactly(sql: string, params: LuaValue)
    ensures MyItems(Compiled(Scan(sql)), Values(Scan(sql), params), 0, MyPlain) == Named(Scan(sql), params)
            <==> MySeparated(Scan(sql), MyPlain)
  {
    hide *;
    var values := Values(Scan(sql), params);
    assert values[0..] == values;
    MyItemsExactly(Scan(sql), params, values, 0, MyPlain);
  }

  /** The statement reads as meant in PostgreSQL and in MySQL. */
  ghost predicate PgReads(sql: string) {
    PgScan(Rewrite(Compiled(Scan(sql)), 0), Plain) == Numbered(Scan(sql), 0)
  }

  ghost predicate MyReads(sql: string, params: LuaValue) {
    MyItems(Compiled(Scan(sql)), Values(Scan(sql), params), 0, MyPlain) == Named(Scan(sql), params)
  }

  /** A named parameter between quotes is text to both databases, whatever its name. */
  lemma QuotedParameterIsLost(sql: string, path: string, params: LuaValue)
    requires Scan(sql) == [Lit('\''), Param(path), Lit('\'')]
    ensures !PgReads(sql) && !MyReads(sql, params)
  {
    PgReadsExactly(sql);
    MyMeaningExactly(sql, params);
    hide Scan, PgScan, Rewrite, Numbered, Compiled, Values, Named, MyItems;
    assert Scan(sql)[1..] == [Param(path), Lit('\'')];
  }

  /** A question mark between quotes is rewritten for PostgreSQL, and left alone by MySQL. */
  lemma QuotedQuestionMark(sql: string, params: LuaValue)
    requires Scan(sql) == [Lit('\''), Lit('?'), Lit('\'')]
    ensures !PgReads(sql) && MyReads(sql, params)
  {
    PgReadsExactly(sql);
    MyMeaningExactly(sql, params);
    hide Scan, PgScan, Rewrite, Numbered, Compiled, Values, Named, MyItems;
    assert Scan(sql)[1..] == [Lit('?'), Lit('\'')] && Scan(sql)[1..][1..] == [Lit('\'')];
    assert Scan(sql)[1] == Lit('?');
    var quoted := MyQuoted('\'', false);
    assert MySeparated([Lit('\'')], quoted) && MySeparated([Lit('?'), Lit('\'')], quoted);
  }

  // ---------------------------------------------------------------------
  // collect_positional
  // ---------------------------------------------------------------------

  datatype TableKey = Index(i: int) | Name(s: string)

  datatype Entry = Entry(key: TableKey, value: LuaValue)

  /** The positive integer keys with the value visited last. */
  function Gathered(entries: seq<Entry>): map<int, LuaValue> {
    if entries == [] then map[]
    else
      var last := entries[|entries| - 1];
      var rest := Gathered(entries[..|entries| - 1]);
      if last.key.Index? && last.key.i >= 1 then rest[last.key.i := last.value] else rest
  }

  function Highest(entries: seq<Entry>): nat {
    if entries == [] then 0
    else
      var last := entries[|entries| - 1];
      var rest := Highest(entries[..|entries| - 1]);
      if last.key.Index? && last.key.i > rest then last.key.i else rest
  }

  /** The values under the keys from lo to hi, in ascending order of their keys. */
  function Ascending(bucket: map<int, LuaValue>, lo: int, hi: int): seq<LuaValue>
    decreases hi - lo
  {
    if lo > hi then [] else (if lo in bucket then [bucket[lo]] else []) + Ascending(bucket, lo + 1, hi)
  }

  /** Gather the values under positive integer keys, then list them by key. */
  method CollectPositional(entries: seq<Entry>) returns (out: seq<LuaValue>)
    ensures out == Ascending(Gathered(entries), 1, Highest(entries))
  {
    var bucket: map<int, LuaValue>, top := map[], 0;
    for e := 0 to |entries|
      invariant bucket == Gathered(entries[..e]) && top == Highest(entries[..e])
    {
      assert entries[..e + 1][..e] == entries[..e];
      match entries[e].key {
        case Index(i) =>
          if i >= 1 {
            bucket := bucket[i := entries[e].value];
            top := if i > top then i else top;
          }
        case Name(_) =>
      }
    }
    assert entries[..|entries|] == entries;
    out := [];
    for i := 1 to top + 1
      invariant out + Ascending(bucket, i, top) == Ascending(bucket, 1, top)
    {
      if i in bucket {
        out := out + [bucket[i]];
      }
    }
  }

  ghost predicate Visited(entries: seq<Entry>, i: int) {
    exists e :: 0 <= e < |entries| && entries[e].key == Index(i)
  }

  /** Every integer key visited belongs to the list and has its value. */
  ghost predicate Within(entries: seq<Entry>, values: seq<LuaValue>) {
    forall e :: 0 <= e < |entries| && entries[e].key.Index? ==>
      1 <= entries[e].key.i <= |values| && entries[e].value == values[entries[e].key.i - 1]
  }

  /** `entries` visits the whole list in some order, with whatever else the table holds under names. */
  ghost predicate Visits(entries: seq<Entry>, values: seq<LuaValue>) {
    Within(entries, values) && forall i :: 1 <= i <= |values| ==> Visited(entries, i)
  }

  lemma {:induction false} GatheredIs(entries: seq<Entry>, values: seq<LuaValue>, i: int)
    requires Within(entries, values) && 1 <= i <= |values|
    ensures i in Gathered(entries) <==> Visited(entries, i)
    ensures i in Gathered(entries) ==> Gathered(entries)[i] == values[i - 1] && i <= Highest(entries)
  {
    if entries != [] {
      var last := |entries| - 1;
      GatheredIs(entries[..last], values, i);
      assert Visited(entries, i) <==> Visited(entries[..last], i) || entries[last].key == Index(i) by {
        if Visited(entries[..last], i) {
          var e :| 0 <= e < last && entries[..last][e].key == Index(i);
          assert entries[e].key == Index(i);
        }
        if Visited(entries, i) && entries[last].key != Index(i) {
          var e :| 0 <= e < |entries| && entries[e].key == Index(i);
          assert entries[..last][e].key == Index(i);
        }
      }
    }
  }

  lemma {:induction false} HighestAtMost(entries: seq<Entry>, values: seq<LuaValue>)
    requires Within(entries, values)
    ensures Highest(entries) <= |values|
  {
    if entries != [] {
      HighestAtMost(entries[..|entries| - 1], values);
    }
  }

  /** The dense list that compile_sql builds passes through unchanged, in whatever order it is visited. */
  lemma DenseListUnchanged(entries: seq<Entry>, values: seq<LuaValue>)
    requires Visits(entries, values)
    ensures Ascending(Gathered(entries), 1, Highest(entries)) == values
  {
    HighestAtMost(entries, values);
    forall i | 1 <= i <= |values|
      ensures i in Gathered(entries) && Gathered(entries)[i] == values[i - 1] && i <= Highest(entries)
    {
      GatheredIs(entries, values, i);
      assert Visited(entries, i);
    }
    if values != [] {
      assert |values| in Gathered(entries);
    }
    AscendingDense(Gathered(entries), 1, values);
    assert values[0..] == values;
  }

  lemma {:induction false} AscendingDense(bucket: map<int, LuaValue>, lo: nat, values: seq<LuaValue>)
    requires 1 <= lo <= |values| + 1
    requires forall i :: lo <= i <= |values| ==> i in bucket && bucket[i] == values[i - 1]
    ensures Ascending(bucket, lo, |values|) == values[lo - 1..]
    decreases |values| - lo
  {
    if lo <= |values| {
      AscendingDense(bucket, lo + 1, values);
      assert values[lo - 1..] == [values[lo - 1]] + values[lo..];
    }
  }
}
