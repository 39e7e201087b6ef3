/** The tokeniser of the flowchart language (`tokeniser` in flowchartParser.ts):
    a character-by-character scan that accumulates a buffer and flushes it as
    `text` or `keyword` tokens, emits each bracket as its own `grouping`
    token, counts lines and rejects the double-quote character. */
module Lexer {
  import opened JsText
  import opened Tokens

  /** `isText`: the character class `/[a-z]/i` (ASCII letters only). */
  predicate IsText(c: char) {
    IsAsciiLetter(c)
  }

  /** The tokeniser's variables: `tokenList`, the pending `token` buffer and `lineNum`. */
  datatype LexState = LexState(tokens: seq<Token>, buffer: string, line: nat)

  /** `addToken(kind)`: push the trimmed buffer if it is not blank. A blank
      buffer is left as it is (it is not cleared). */
  function AddToken(st: LexState, kind: TokenType): LexState {
    var t := Trim(st.buffer);
    if t != [] then LexState(st.tokens + [Token(kind, t, st.line)], [], st.line) else st
  }

  /** One iteration of the character loop. */
  function Step(st: LexState, c: char): Result<LexState> {
    if c == '"' then Fail(IllegalQuote(st.line))
    else if !IsText(c) then
      var st1 := if Trim(st.buffer) in Keywords then AddToken(st, Keyword) else st;
      if c in Brackets then
        var st2 := AddToken(st1, Text);
        Ok(AddToken(st2.(buffer := [c]), Grouping))
      else if c == '\n' then
        var st2 := AddToken(st1, Text);
        Ok(st2.(line := st2.line + 1))
      else
        Ok(st1.(buffer := st1.buffer + [c]))
    else
      Ok(st.(buffer := st.buffer + [c]))
  }

  /** The state after the loop has consumed `s`. */
  function Scan(s: string): Result<LexState>
    decreases |s|
  {
    if s == [] then Ok(LexState([], [], 0))
    else
      match Scan(s[..|s| - 1])
      case Fail(e) => Fail(e)
      case Ok(st) => Step(st, s[|s| - 1])
  }

  /** The token list `tokeniser(text)` returns, or the error it throws. */
  function Lex(text: string): Result<seq<Token>> {
    match Scan(text)
    case Fail(e) => Fail(e)
    case Ok(st) => Ok(AddToken(st, Text).tokens)
  }

  /** The tokeniser loop. */
  method Tokenise(text: string) returns (r: Result<seq<Token>>)
    ensures r == Lex(text)
  {
    var tokenList: seq<Token> := [];
    var token: string := "";
    var lineNum: nat := 0;
    var charIndex := 0;
    while charIndex < |text|
      invariant 0 <= charIndex <= |text|
      invariant Scan(text[..charIndex]) == Ok(LexState(tokenList, token, lineNum))
    {
      var c := text[charIndex];
      ScanNext(text, charIndex, LexState(tokenList, token, lineNum));
      if c == '"' {
        ScanFailure(text, charIndex + 1);
        return Fail(IllegalQuote(lineNum));
      }
      tokenList, token, lineNum := ReadChar(tokenList, token, lineNum, c);
      charIndex := charIndex + 1;
    }
    assert text[..charIndex] == text;
    tokenList, token := Flush(tokenList, token, lineNum, Text);
    r := Ok(tokenList);
  }

  /** Reading one more character is one more step. */
  lemma ScanNext(text: string, i: nat, st: LexState)
    requires i < |text| && Scan(text[..i]) == Ok(st)
    ensures Scan(text[..i + 1]) == Step(st, text[i])
  {
    assert text[..i + 1][..i] == text[..i];
  }

  /** The loop body for a character other than `"`. */
  method ReadChar(tokenList: seq<Token>, token: string, lineNum: nat, c: char)
    returns (tokenList': seq<Token>, token': string, lineNum': nat)
    requires c != '"'
    ensures Step(LexState(tokenList, token, lineNum), c) == Ok(LexState(tokenList', token', lineNum'))
  {
    tokenList', token', lineNum' := tokenList, token, lineNum;
    if !IsText(c) {
      if Trim(token') in Keywords {
        tokenList', token' := Flush(tokenList', token', lineNum', Keyword);
      }
      if c in Brackets {
        tokenList', token' := Flush(tokenList', token', lineNum', Text);
        token' := [c];
        tokenList', token' := Flush(tokenList', token', lineNum', Grouping);
      } else if c == '\n' {
        tokenList', token' := Flush(tokenList', token', lineNum', Text);
        lineNum' := lineNum' + 1;
      } else {
        token' := token' + [c];
      }
    } else {
      token' := token' + [c];
    }
  }

  /** The body of `addToken`. */
  method Flush(tokenList: seq<Token>, token: string, lineNum: nat, kind: TokenType)
    returns (tokenList': seq<Token>, token': string)
    ensures LexState(tokenList', token', lineNum) == AddToken(LexState(tokenList, token, lineNum), kind)
  {
    var trimmed := Trim(token);
    tokenList', token' := tokenList, token;
    if trimmed != "" {
      tokenList' := tokenList + [Token(kind, trimmed, lineNum)];
      token' := "";
    }
  }

  // ----------------------------------------------------------------------
  // Properties of the token list

  /** Number of newlines in `s`: the line counter after reading `s`. */
  function Newlines(s: string): nat {
    multiset(s)['\n']
  }

  /** The bracket characters of `s`, in order. */
  function BracketsOf(s: string): seq<char> {
    if s == [] then []
    else BracketsOf(s[..|s| - 1]) + (if s[|s| - 1] in Brackets then [s[|s| - 1]] else [])
  }

  /** The characters of the `grouping` tokens of `ts`, in order. */
  function Groupings(ts: seq<Token>): seq<char> {
    if ts == [] then []
    else
      var t := ts[|ts| - 1];
      Groupings(ts[..|ts| - 1]) + (if t.kind == Grouping && |t.value| == 1 then [t.value[0]] else [])
  }

  /** What every emitted token looks like. */
  predicate WellShaped(t: Token) {
    && t.value != []
    && IsTrimmed(t.value)
    && '\n' !in t.value
    && '"' !in t.value
    && t.kind in {Keyword, Text, Grouping}
    && (t.kind == Keyword ==> t.value in Keywords)
    && (t.kind == Grouping ==> |t.value| == 1 && t.value[0] in Brackets)
    && (t.kind != Grouping ==> forall i :: 0 <= i < |t.value| ==> t.value[i] !in Brackets)
  }

  /** The token list is well shaped, its lines never decrease and none exceeds `line`. */
  predicate GoodTokens(ts: seq<Token>, line: nat) {
    && (forall i :: 0 <= i < |ts| ==> WellShaped(ts[i]))
    && (forall i :: 0 <= i < |ts| ==> ts[i].line <= line)
    && (forall i, j :: 0 <= i < j < |ts| ==> ts[i].line <= ts[j].line)
  }

  /** The invariant of the character loop after reading `s`. */
  predicate GoodState(st: LexState, s: string) {
    && st.line == Newlines(s)
    && '\n' !in st.buffer
    && '"' !in st.buffer
    && (forall i :: 0 <= i < |st.buffer| ==> st.buffer[i] !in Brackets)
    && GoodTokens(st.tokens, st.line)
    && Groupings(st.tokens) == BracketsOf(s)
  }

  /** Appending a well-shaped token on the current line keeps the list good. */
  lemma AppendGood(ts: seq<Token>, t: Token, line: nat)
    requires GoodTokens(ts, line)
    requires WellShaped(t) && t.line == line
    ensures GoodTokens(ts + [t], line)
    ensures Groupings(ts + [t]) == Groupings(ts) + (if t.kind == Grouping then [t.value[0]] else [])
  {
    assert (ts + [t])[..|ts|] == ts;
  }

  lemma AddTokenGood(st: LexState, kind: TokenType, s: string)
    requires GoodState(st, s)
    requires kind == Text || (kind == Keyword && Trim(st.buffer) in Keywords)
    ensures GoodState(AddToken(st, kind), s)
  {
    var t := Trim(st.buffer);
    if t != [] {
      forall i | 0 <= i < |t| ensures t[i] in st.buffer { TrimChars(st.buffer, t[i]); }
      AppendGood(st.tokens, Token(kind, t, st.line), st.line);
    }
  }

  /** How the line count and the bracket list grow by one character. */
  lemma ReadOneChar(s: string, c: char)
    ensures Newlines(s + [c]) == Newlines(s) + (if c == '\n' then 1 else 0)
    ensures BracketsOf(s + [c]) == BracketsOf(s) + (if c in Brackets then [c] else [])
  {
    assert (s + [c])[..|s|] == s;
    assert multiset(s + [c]) == multiset(s) + multiset{c};
  }

  /** A one-character bracket buffer is flushed as exactly that bracket's token. */
  lemma BracketGood(st: LexState, c: char, s: string)
    requires GoodState(st, s)
    requires c in Brackets
    ensures GoodState(AddToken(st.(buffer := [c]), Grouping), s + [c])
  {
    assert !IsJsSpace(c);
    TrimTrimmed([c]);
    var t := Token(Grouping, [c], st.line);
    AppendGood(st.tokens, t, st.line);
    ReadOneChar(s, c);
    assert AddToken(st.(buffer := [c]), Grouping) == LexState(st.tokens + [t], [], st.line);
  }

  /** Scanning fails exactly on a quote; a successful scan keeps the loop invariant. */
  lemma {:induction false} ScanFacts(s: string)
    ensures Scan(s).Fail? <==> '"' in s
    ensures Scan(s).Fail? ==> Scan(s).error == IllegalQuote(Newlines(s[..IndexOf(s, '"')]))
    ensures Scan(s).Ok? ==> GoodState(Scan(s).value, s)
    decreases |s|
  {
    if s != [] {
      var p := s[..|s| - 1];
      var c := s[|s| - 1];
      assert s == p + [c];
      ScanFacts(p);
      if '"' in p {
        QuoteBefore(p, c);
      } else if c == '"' {
        QuoteLast(p);
      } else {
        QuoteNowhere(p, c);
        StepGood(Scan(p).value, c, p);
      }
    }
  }

  /** A quote already read stays the first quote. */
  lemma QuoteBefore(p: string, c: char)
    requires '"' in p
    ensures '"' in p + [c]
    ensures IndexOf(p + [c], '"') == IndexOf(p, '"')
    ensures (p + [c])[..IndexOf(p, '"')] == p[..IndexOf(p, '"')]
  {
    var k := IndexOf(p, '"');
    var s := p + [c];
    assert s[k] == '"' && s[..k] == p[..k];
  }

  lemma QuoteLast(p: string)
    requires '"' !in p
    ensures IndexOf(p + ['"'], '"') == |p|
    ensures (p + ['"'])[..|p|] == p
  {
    var s := p + ['"'];
    assert s[..|p|] == p;
  }

  lemma QuoteNowhere(p: string, c: char)
    requires '"' !in p && c != '"'
    ensures '"' !in p + [c]
  {
    assert multiset(p + [c]) == multiset(p) + multiset{c};
  }

  /** Appending a character that is no bracket, newline or quote to the buffer keeps the invariant. */
  lemma AppendCharGood(st: LexState, c: char, p: string)
    requires GoodState(st, p)
    requires c !in Brackets && c != '\n' && c != '"'
    ensures GoodState(st.(buffer := st.buffer + [c]), p + [c])
  {
    ReadOneChar(p, c);
    var b := st.buffer + [c];
    assert forall i :: 0 <= i < |b| ==> b[i] !in Brackets by {
      forall i | 0 <= i < |b| ensures b[i] !in Brackets {
        if i < |st.buffer| { assert b[i] == st.buffer[i]; }
      }
    }
  }

  /** A newline flushes the buffer and moves to the next line. */
  lemma NewlineGood(st: LexState, p: string)
    requires GoodState(st, p)
    ensures GoodState(AddToken(st, Text).(line := st.line + 1), p + ['\n'])
  {
    AddTokenGood(st, Text, p);
    ReadOneChar(p, '\n');
    var st2 := AddToken(st, Text);
    assert GoodTokens(st2.tokens, st2.line + 1);
  }

  /** One step keeps the loop invariant. */
  lemma StepGood(st: LexState, c: char, p: string)
    requires GoodState(st, p)
    requires c != '"'
    ensures Step(st, c).Ok?
    ensures GoodState(Step(st, c).value, p + [c])
  {
    if !IsText(c) {
      var st1 := if Trim(st.buffer) in Keywords then AddToken(st, Keyword) else st;
      if Trim(st.buffer) in Keywords { AddTokenGood(st, Keyword, p); }
      if c in Brackets {
        AddTokenGood(st1, Text, p);
        BracketGood(AddToken(st1, Text), c, p);
      } else if c == '\n' {
        NewlineGood(st1, p);
      } else {
        AppendCharGood(st1, c, p);
      }
    } else {
      AppendCharGood(st, c, p);
    }
  }

  /** Once the scan of a prefix has failed, the scan of the whole text fails the same way. */
  lemma {:induction false} ScanFailure(text: string, k: nat)
    requires k <= |text| && Scan(text[..k]).Fail?
    ensures Scan(text) == Scan(text[..k])
    decreases |text| - k
  {
    if k < |text| {
      assert text[..k + 1][..k] == text[..k];
      ScanFailure(text, k + 1);
    } else {
      assert text[..k] == text;
    }
  }

  /** Quote rejection: the tokeniser fails exactly when the text holds a `"`,
      and then reports the line of the first one. */
  lemma QuoteRejection(text: string)
    ensures Lex(text).Fail? <==> '"' in text
    ensures '"' in text ==> Lex(text) == Fail(IllegalQuote(Newlines(text[..IndexOf(text, '"')])))
  {
    ScanFacts(text);
  }

  /** Token shape: every emitted token is trimmed, non-empty and free of
      newlines and quotes; keywords are `if`/`else`/`while`; each bracket of the
      text becomes its own one-character `grouping` token, in order; line
      numbers never decrease and never exceed the number of newlines. */
  lemma TokenShape(text: string)
    requires '"' !in text
    ensures Lex(text).Ok?
    ensures GoodTokens(Lex(text).value, Newlines(text))
    ensures Groupings(Lex(text).value) == BracketsOf(text)
  {
    ScanFacts(text);
    var st := Scan(text).value;
    AddTokenGood(st, Text, text);
  }
}
