/** The grammar normaliser (`preprocess` in flowchartParser.ts): wraps the
    token list in `Start`/`End` sentinels and rewrites every `else if` into
    `else { if ... }`, inserting a `{` before the `if` and a matching `}`
    found by a forward scan over brace depth that also absorbs trailing
    `else` blocks. */
module Normaliser {
  import opened Tokens

  const StartToken: Token := Token(Start, "Start", 0)

  function EndToken(line: nat): Token {
    Token(End, "End", line)
  }

  /** The line the `End` sentinel gets: that of the last input token, or 0. */
  function EndLine(input: seq<Token>): nat {
    if input == [] then 0 else input[|input| - 1].line
  }

  /** The token list before any rewriting: the input between the sentinels. */
  function Framed(input: seq<Token>): seq<Token> {
    [StartToken] + input + [EndToken(EndLine(input))]
  }

  /** `splice(i, 0, x)`. */
  function Insert<T>(s: seq<T>, i: nat, x: T): (r: seq<T>)
    requires i <= |s|
    ensures |r| == |s| + 1
  {
    s[..i] + [x] + s[i..]
  }

  /** Where the elements of `s` are after an insertion at `i`. */
  lemma InsertAt<T>(s: seq<T>, i: nat, x: T)
    requires i <= |s|
    ensures Insert(s, i, x)[i] == x
    ensures forall k :: 0 <= k < i ==> Insert(s, i, x)[k] == s[k]
    ensures forall k :: i < k <= |s| ==> Insert(s, i, x)[k] == s[k - 1]
  {
  }

  /** The tokens of `ts` whose `inserted` flag is false, in order. */
  function Kept<T>(ts: seq<T>, inserted: seq<bool>): seq<T>
    requires |ts| == |inserted|
  {
    if ts == [] then []
    else (if inserted[0] then [] else [ts[0]]) + Kept(ts[1..], inserted[1..])
  }

  /** Inserting an element flagged as inserted leaves the kept elements alone. */
  lemma {:induction false} KeptInsert<T>(ts: seq<T>, inserted: seq<bool>, i: nat, x: T)
    requires |ts| == |inserted| && i <= |ts|
    ensures Kept(Insert(ts, i, x), Insert(inserted, i, true)) == Kept(ts, inserted)
    decreases i
  {
    if i == 0 {
      assert Insert(ts, i, x) == [x] + ts && Insert(inserted, i, true) == [true] + inserted;
      assert ([x] + ts)[1..] == ts && ([true] + inserted)[1..] == inserted;
    } else {
      KeptInsert(ts[1..], inserted[1..], i - 1, x);
      assert Insert(ts, i, x) == [ts[0]] + Insert(ts[1..], i - 1, x);
      assert Insert(inserted, i, true) == [inserted[0]] + Insert(inserted[1..], i - 1, true);
    }
  }

  lemma {:induction false} KeptAllFalse<T>(ts: seq<T>, inserted: seq<bool>)
    requires |ts| == |inserted| && forall k :: 0 <= k < |inserted| ==> !inserted[k]
    ensures Kept(ts, inserted) == ts
    decreases |ts|
  {
    if ts != [] {
      KeptAllFalse(ts[1..], inserted[1..]);
      assert [ts[0]] + ts[1..] == ts;
    }
  }

  /** Number of `else` keyword tokens at positions `k` and after. */
  function ElsesFrom(ts: seq<Token>, k: nat): nat
    decreases |ts| - k
  {
    if k >= |ts| then 0 else (if IsKeyword(ts[k], "else") then 1 else 0) + ElsesFrom(ts, k + 1)
  }

  lemma {:induction false} ElsesFromShifted(ts: seq<Token>, i: nat, x: Token, k: nat)
    requires i < k <= |ts| + 1
    ensures ElsesFrom(Insert(ts, i, x), k) == ElsesFrom(ts, k - 1)
    decreases |ts| + 1 - k
  {
    InsertAt(ts, i, x);
    if k < |ts| + 1 {
      ElsesFromShifted(ts, i, x, k + 1);
    }
  }

  /** Inserting a token that is not `else` at or after `k` leaves the count alone. */
  lemma {:induction false} ElsesFromInsert(ts: seq<Token>, i: nat, x: Token, k: nat)
    requires k <= i <= |ts| && !IsKeyword(x, "else")
    ensures ElsesFrom(Insert(ts, i, x), k) == ElsesFrom(ts, k)
    decreases i - k
  {
    InsertAt(ts, i, x);
    if k == i {
      ElsesFromShifted(ts, i, x, k + 1);
    } else {
      ElsesFromInsert(ts, i, x, k + 1);
    }
  }

  /** Scanning one more token changes the depth by that token's brace. */
  lemma DepthNext(ts: seq<Token>, from: nat, sub: nat)
    requires from <= sub < |ts|
    ensures Depth(ts[from..sub + 1]) == Depth(ts[from..sub])
      + (if IsGrouping(ts[sub], '{') then 1 else 0) - (if IsGrouping(ts[sub], '}') then 1 else 0)
  {
    assert ts[from..sub + 1] == ts[from..sub] + [ts[sub]];
    CountGroupingAppend(ts[from..sub], [ts[sub]], '{');
    CountGroupingAppend(ts[from..sub], [ts[sub]], '}');
    DepthOne(ts[sub]);
  }

  /** A place where the forward scan from `from` stops: a brace after which
      the depth of the scanned tokens is back at 0, not followed by `else`. */
  predicate CloseAt(ts: seq<Token>, from: nat, j: nat) {
    && from <= j < |ts|
    && (IsGrouping(ts[j], '{') || IsGrouping(ts[j], '}'))
    && Depth(ts[from..j + 1]) == 0
    && (j + 1 == |ts| || !IsKeyword(ts[j + 1], "else"))
  }

  /** The first stop of the forward scan from `from` at or after `j`. */
  function FirstClose(ts: seq<Token>, from: nat, j: nat): (r: Option<nat>)
    ensures r.Some? ==> j <= r.value && CloseAt(ts, from, r.value)
    ensures forall k :: j <= k < (if r.Some? then r.value else |ts|) ==> !CloseAt(ts, from, k)
    decreases |ts| - j
  {
    if j >= |ts| then None
    else if CloseAt(ts, from, j) then Some(j)
    else FirstClose(ts, from, j + 1)
  }

  /** A stop with no stop before it is the first one; no stop at all gives `None`. */
  lemma FirstCloseIs(ts: seq<Token>, from: nat, j: nat, sub: nat)
    requires j <= sub <= |ts| && forall k :: j <= k < sub ==> !CloseAt(ts, from, k)
    ensures sub < |ts| && CloseAt(ts, from, sub) ==> FirstClose(ts, from, j) == Some(sub)
    ensures sub == |ts| ==> FirstClose(ts, from, j) == None
  {
    var r := FirstClose(ts, from, j);
    if r.Some? {
      assert r.value >= sub;
    }
  }

  /** The forward scan for the insertion point of the closing `}` (the inner
      `while` of `preprocess`), starting at `from`. It returns the stopping
      index `sub`, the brace depth `blockCount` of the scanned tokens and
      whether an insertion point was found: the FIRST brace where the depth
      is back at 0 after a block opened and that is not followed by `else`. */
  method ScanForClose(tokens: seq<Token>, from: nat) returns (sub: nat, blockCount: int, found: bool)
    requires from <= |tokens|
    ensures from <= sub <= |tokens|
    ensures found ==> CloseAt(tokens, from, sub) && blockCount == 0
    ensures !found ==> sub == |tokens| && blockCount == Depth(tokens[from..])
    ensures forall j :: from <= j < sub ==> !CloseAt(tokens, from, j)
  {
    sub, blockCount, found := from, 0, false;
    var hasOpened := false;
    while sub < |tokens| && !found
      invariant from <= sub <= |tokens|
      invariant !found ==> blockCount == Depth(tokens[from..sub]) && !(blockCount == 0 && hasOpened)
      invariant !found ==> (blockCount > 0 ==> hasOpened)
      invariant found ==> CloseAt(tokens, from, sub) && blockCount == 0
      invariant forall j :: from <= j < sub ==> !CloseAt(tokens, from, j)
      decreases |tokens| - sub, if found then 0 else 1
    {
      var subToken := tokens[sub];
      DepthNext(tokens, from, sub);
      if subToken.kind == Grouping && subToken.value == "{" {
        blockCount := blockCount + 1;
        hasOpened := true;
      } else if subToken.kind == Grouping && subToken.value == "}" {
        blockCount := blockCount - 1;
      }
      if blockCount == 0 && hasOpened {
        if sub + 1 < |tokens| && tokens[sub + 1].kind == Keyword && tokens[sub + 1].value == "else" {
          hasOpened := false;
          sub := sub + 1;
        } else {
          found := true;
        }
      } else {
        sub := sub + 1;
      }
    }
    if !found {
      assert tokens[from..sub] == tokens[from..];
    }
  }

  /** One `else if` rewrite as a function: the `{` goes in before the `if` at
      `t`; the `}` goes in at the first stop of the scan after it, or at the
      end when the scan runs out at depth 0; a scan that runs out below or
      above depth 0 is a mismatched opening or closing brace. */
  function RewriteAt(ts: seq<Token>, t: nat): (r: Result<seq<Token>>)
    requires 1 <= t < |ts| && ElseIfAt(ts, t)
    ensures r.Ok? ==> |r.value| == |ts| + 2 && ElsesFrom(r.value, t) < ElsesFrom(ts, t - 1)
  {
    var w := Insert(ts, t, Token(Grouping, "{", ts[t].line));
    var stop := FirstClose(w, t + 1, t + 1);
    if stop.Some? || Depth(w[t + 1..]) == 0 then
      var s := if stop.Some? then stop.value else |w|;
      var r := Insert(w, s, Token(Grouping, "}", w[s - 1].line));
      MeasureAfterRewrite(ts, w, r, t, s);
      Ok(r)
    else if Depth(w[t + 1..]) < 0 then Fail(MismatchedOpening(ts[t].line))
    else Fail(MismatchedClosing(w[|w| - 1].line))
  }

  /** The outer loop of `preprocess` as a function: every `else if` from
      position `t` on is rewritten, left to right, up to the first failure. */
  function RewriteFrom(ts: seq<Token>, t: nat): Result<seq<Token>>
    requires 1 <= t
    decreases ElsesFrom(ts, t - 1), |ts| - t
  {
    if t >= |ts| then Ok(ts)
    else if ElseIfAt(ts, t) then
      match RewriteAt(ts, t)
      case Fail(e) => Fail(e)
      case Ok(next) => RewriteFrom(next, t + 1)
    else RewriteFrom(ts, t + 1)
  }

  /** What `preprocess` returns for `input`, or the error it throws. */
  function Normalise(input: seq<Token>): Result<seq<Token>> {
    RewriteFrom(Framed(input), 1)
  }

  /** `preprocess`: the tokens between the sentinels with every `else if`
      rewritten. The ghost `inserted` flags the tokens the rewriting added. */
  method Preprocess(input: seq<Token>) returns (r: Result<seq<Token>>, ghost inserted: seq<bool>)
    ensures r == Normalise(input)
    ensures r.Fail? ==> r.error.MismatchedOpening? || r.error.MismatchedClosing?
    ensures r.Fail? && r.error.MismatchedClosing? ==> r.error.line == EndLine(input)
    ensures r.Ok? ==> |inserted| == |r.value|
    // only inserts: removing the inserted tokens gives back the framed input
    ensures r.Ok? ==> Kept(r.value, inserted) == Framed(input)
    ensures r.Ok? ==> r.value[0] == StartToken && !inserted[0]
    // inserted tokens are braces, as many `{` as `}`
    ensures r.Ok? ==> InsertedAreBraces(r.value, inserted)
    ensures r.Ok? ==> Depth(r.value) == Depth(Framed(input))
    // each inserted `{` sits between an original `else` and an original `if`
    ensures r.Ok? ==> OpeningsPlaced(r.value, inserted, |r.value|)
    // no `else` is directly followed by `if` any more
    ensures r.Ok? ==> ElseIfFree(r.value)
    // without an `else if` the result is the framed input
    ensures ElseIfFree(input) ==> r == Ok(Framed(input))
  {
    var startToken := Token(Start, "Start", 0);
    var tokens := [startToken] + input;
    var endToken := Token(End, "End", tokens[|tokens| - 1].line);
    tokens := tokens + [endToken];
    ghost var framed := tokens;
    assert framed == Framed(input);
    inserted := seq(|tokens|, _ => false);
    InvInit(input, inserted);
    if ElseIfFree(input) {
      FramedElseIfFree(input);
    }

    var error;
    tokens, inserted, error := RewriteAll(tokens, inserted, framed, EndLine(input));
    if error.Some? {
      return Fail(error.value), inserted;
    }
    r := Ok(tokens);
  }

  /** The loop of `preprocess` over the framed tokens, from index 1: every
      `else if` it meets is rewritten, and the first mismatched brace the
      forward scan finds ends it with an error. */
  method RewriteAll(tokens: seq<Token>, ghost inserted: seq<bool>, ghost framed: seq<Token>, ghost endLine: nat)
    returns (tokens': seq<Token>, ghost inserted': seq<bool>, error: Option<FlowError>)
    requires Inv(tokens, inserted, 1, framed, endLine)
    requires ElseIfFree(framed) ==> tokens == framed
    ensures error.Some? ==> error.value.MismatchedOpening? || (error.value.MismatchedClosing? && error.value.line == endLine)
    ensures error.None? ==> Inv(tokens', inserted', |tokens'|, framed, endLine)
    ensures ElseIfFree(framed) ==> error.None? && tokens' == framed
    ensures error.None? ==> RewriteFrom(tokens, 1) == Ok(tokens')
    ensures error.Some? ==> RewriteFrom(tokens, 1) == Fail(error.value)
  {
    tokens', inserted' := tokens, inserted;
    var tokenIndex := 1;
    while tokenIndex < |tokens'|
      invariant Inv(tokens', inserted', tokenIndex, framed, endLine)
      invariant ElseIfFree(framed) ==> tokens' == framed
      invariant RewriteFrom(tokens', tokenIndex) == RewriteFrom(tokens, 1)
      decreases ElsesFrom(tokens', tokenIndex - 1), |tokens'| - tokenIndex
    {
      var token := tokens'[tokenIndex];
      var prevToken := tokens'[tokenIndex - 1];
      if token.kind == Keyword && token.value == "if" && prevToken.kind == Keyword && prevToken.value == "else" {
        assert ElseIfAt(tokens', tokenIndex);
        assert !ElseIfFree(framed);
        tokens', inserted', error := RewriteElseIf(tokens', inserted', tokenIndex, framed, endLine);
        if error.Some? {
          return;
        }
      } else {
        SkipKeepsInv(tokens', inserted', tokenIndex, framed, endLine);
      }
      tokenIndex := tokenIndex + 1;
    }
    error := None;
  }

  /** One rewrite of `preprocess`: the `else if` at `tokenIndex` gets a `{`
      before its `if` and a `}` where the forward scan stops; a scan that ends
      below depth 0 or above it reports the mismatched brace instead. */
  method RewriteElseIf(tokens: seq<Token>, ghost inserted: seq<bool>, tokenIndex: nat,
                       ghost framed: seq<Token>, ghost endLine: nat)
    returns (tokens': seq<Token>, ghost inserted': seq<bool>, error: Option<FlowError>)
    requires Inv(tokens, inserted, tokenIndex, framed, endLine) && tokenIndex < |tokens| && ElseIfAt(tokens, tokenIndex)
    ensures error.Some? ==> error.value.MismatchedOpening? || (error.value.MismatchedClosing? && error.value.line == endLine)
    ensures error.Some? ==> error.value.MismatchedOpening? ==> error.value.line == tokens[tokenIndex].line
    ensures error.None? ==> Inv(tokens', inserted', tokenIndex + 1, framed, endLine)
    ensures error.None? ==> RewriteAt(tokens, tokenIndex) == Ok(tokens')
    ensures error.Some? ==> RewriteAt(tokens, tokenIndex) == Fail(error.value)
  {
    var token := tokens[tokenIndex];
    var openingToken := Token(Grouping, "{", token.line);
    var withOpening := Insert(tokens, tokenIndex, openingToken);
    var subScanIndex, blockCount, insertionFound := ScanForClose(withOpening, tokenIndex + 1);
    FirstCloseIs(withOpening, tokenIndex + 1, tokenIndex + 1, subScanIndex);
    if blockCount == 0 {
      var closingToken := Token(Grouping, "}", withOpening[subScanIndex - 1].line);
      tokens' := Insert(withOpening, subScanIndex, closingToken);
      inserted' := Insert(Insert(inserted, tokenIndex, true), subScanIndex, true);
      RewriteKeepsInv(tokens, inserted, tokenIndex, subScanIndex, insertionFound, framed, endLine);
      error := None;
    } else if blockCount < 0 {
      tokens', inserted', error := withOpening, inserted, Some(MismatchedOpening(token.line));
    } else {
      LastLineAfterOpening(tokens, inserted, tokenIndex, framed, endLine);
      tokens', inserted', error := withOpening, inserted, Some(MismatchedClosing(withOpening[subScanIndex - 1].line));
    }
  }

  /** Every inserted token is a brace. */
  ghost predicate InsertedAreBraces(ts: seq<Token>, inserted: seq<bool>)
    requires |ts| == |inserted|
  {
    forall j :: 0 <= j < |ts| && inserted[j] ==> IsGrouping(ts[j], '{') || IsGrouping(ts[j], '}')
  }

  /** Every inserted `{` lies before `limit`, right after an original `else`
      and right before an original `if`. */
  ghost predicate OpeningsPlaced(ts: seq<Token>, inserted: seq<bool>, limit: nat)
    requires |ts| == |inserted|
  {
    forall j :: 0 <= j < |ts| && inserted[j] && IsGrouping(ts[j], '{') ==>
      1 <= j < limit && j + 1 < |ts| && !inserted[j - 1] && !inserted[j + 1]
      && IsKeyword(ts[j - 1], "else") && IsKeyword(ts[j + 1], "if")
  }

  /** The invariant of the outer loop of `preprocess` at `tokenIndex == t`. */
  ghost predicate Inv(ts: seq<Token>, inserted: seq<bool>, t: nat, framed: seq<Token>, endLine: nat) {
    && 1 <= t <= |ts| && |inserted| == |ts|
    && Kept(ts, inserted) == framed
    && ts[0] == StartToken && !inserted[0]
    && ts[|ts| - 1].line == endLine
    && InsertedAreBraces(ts, inserted)
    && OpeningsPlaced(ts, inserted, t)
    && (forall j :: 1 <= j < t ==> !ElseIfAt(ts, j))
    && Depth(ts) == Depth(framed)
  }

  /** The loop invariant holds on entry, before anything is inserted. */
  lemma InvInit(input: seq<Token>, inserted: seq<bool>)
    requires inserted == seq(|Framed(input)|, _ => false)
    ensures Inv(Framed(input), inserted, 1, Framed(input), EndLine(input))
  {
    KeptAllFalse(Framed(input), inserted);
  }

  /** Moving past a position without an `else if` keeps the invariant. */
  lemma SkipKeepsInv(ts: seq<Token>, inserted: seq<bool>, t: nat, framed: seq<Token>, endLine: nat)
    requires Inv(ts, inserted, t, framed, endLine) && t < |ts| && !ElseIfAt(ts, t)
    ensures Inv(ts, inserted, t + 1, framed, endLine)
  {
  }

  lemma FramedElseIfFree(input: seq<Token>)
    requires ElseIfFree(input)
    ensures ElseIfFree(Framed(input))
  {
    var f := Framed(input);
    forall j | 1 <= j < |f| ensures !ElseIfAt(f, j) {
      if 1 < j < |f| - 1 { assert !ElseIfAt(input, j - 1); }
    }
  }

  /** The last token keeps the `End` line after the `{` insertion. */
  lemma LastLineAfterOpening(ts: seq<Token>, inserted: seq<bool>, t: nat, framed: seq<Token>, endLine: nat)
    requires Inv(ts, inserted, t, framed, endLine) && t < |ts|
    ensures var ts1 := Insert(ts, t, Token(Grouping, "{", ts[t].line)); ts1[|ts1| - 1].line == endLine
  {
    InsertAt(ts, t, Token(Grouping, "{", ts[t].line));
  }

  /** Rewriting the `else if` at `t` re-establishes the loop invariant at `t + 1`. */
  lemma RewriteKeepsInv(ts: seq<Token>, inserted: seq<bool>, t: nat, sub: nat, found: bool,
                        framed: seq<Token>, endLine: nat)
    requires Inv(ts, inserted, t, framed, endLine) && t < |ts| && ElseIfAt(ts, t)
    requires var ts1 := Insert(ts, t, Token(Grouping, "{", ts[t].line));
      && t + 1 <= sub <= |ts1|
      && (!found ==> sub == |ts1|)
      && (found ==> sub < |ts1| && (IsGrouping(ts1[sub], '{') || IsGrouping(ts1[sub], '}')))
    ensures var ts1 := Insert(ts, t, Token(Grouping, "{", ts[t].line));
      var ins1 := Insert(inserted, t, true);
      sub > t + 1 &&
      Inv(Insert(ts1, sub, Token(Grouping, "}", ts1[sub - 1].line)), Insert(ins1, sub, true), t + 1, framed, endLine)
  {
    var o := Token(Grouping, "{", ts[t].line);
    var ts1, ins1 := Insert(ts, t, o), Insert(inserted, t, true);
    OpeningKeepsShape(ts, inserted, t, framed, endLine);
    assert sub > t + 1 by {
      InsertAt(ts, t, o);
      assert ts1[t + 1] == ts[t];
    }
    var c := Token(Grouping, "}", ts1[sub - 1].line);
    ClosingKeepsShape(ts1, ins1, t, sub, framed, endLine);
    PairKeepsContent(ts, inserted, t, o, sub, c);
  }

  /** Inserting a flagged `{` and then a flagged `}` changes neither the kept
      tokens nor the depth. */
  lemma PairKeepsContent(ts: seq<Token>, inserted: seq<bool>, t: nat, o: Token, sub: nat, c: Token)
    requires |ts| == |inserted| && t <= |ts| && sub <= |ts| + 1
    requires IsGrouping(o, '{') && IsGrouping(c, '}')
    ensures var ts2 := Insert(Insert(ts, t, o), sub, c);
      && Kept(ts2, Insert(Insert(inserted, t, true), sub, true)) == Kept(ts, inserted)
      && Depth(ts2) == Depth(ts)
  {
    KeptInsert(ts, inserted, t, o);
    KeptInsert(Insert(ts, t, o), Insert(inserted, t, true), sub, c);
    DepthInsert(ts, t, o);
    DepthInsert(Insert(ts, t, o), sub, c);
    DepthOne(o);
    DepthOne(c);
  }

  /** The invariant, except for the depth and the kept tokens, after the
      `{` has been inserted at `t`; no inserted `{` lies after `t`. */
  ghost predicate HalfInv(ts: seq<Token>, inserted: seq<bool>, t: nat, endLine: nat) {
    && 1 <= t && t + 1 < |ts| && |inserted| == |ts|
    && ts[0] == StartToken && !inserted[0]
    && ts[|ts| - 1].line == endLine
    && InsertedAreBraces(ts, inserted)
    && OpeningsPlaced(ts, inserted, t + 1)
    && (forall j :: 1 <= j <= t ==> !ElseIfAt(ts, j))
  }

  lemma OpeningKeepsShape(ts: seq<Token>, inserted: seq<bool>, t: nat, framed: seq<Token>, endLine: nat)
    requires Inv(ts, inserted, t, framed, endLine) && t < |ts| && ElseIfAt(ts, t)
    ensures HalfInv(Insert(ts, t, Token(Grouping, "{", ts[t].line)), Insert(inserted, t, true), t, endLine)
  {
    var o := Token(Grouping, "{", ts[t].line);
    InsertAt(ts, t, o);
    InsertAt(inserted, t, true);
    OpeningPlaced(ts, inserted, t);
    OpeningNoElseIf(ts, t, o);
  }

  /** The inserted `{` is a brace between the original `else` and `if`. */
  lemma OpeningPlaced(ts: seq<Token>, inserted: seq<bool>, t: nat)
    requires 1 <= t < |ts| && |inserted| == |ts| && ElseIfAt(ts, t) && !inserted[t - 1] && !inserted[t]
    requires InsertedAreBraces(ts, inserted) && OpeningsPlaced(ts, inserted, t)
    ensures var ts1, ins1 := Insert(ts, t, Token(Grouping, "{", ts[t].line)), Insert(inserted, t, true);
      InsertedAreBraces(ts1, ins1) && OpeningsPlaced(ts1, ins1, t + 1)
  {
    var o := Token(Grouping, "{", ts[t].line);
    var ts1, ins1 := Insert(ts, t, o), Insert(inserted, t, true);
    InsertAt(ts, t, o);
    InsertAt(inserted, t, true);
    forall j | 0 <= j < |ts1| && ins1[j] ensures IsGrouping(ts1[j], '{') || IsGrouping(ts1[j], '}') {
      if j < t {
        assert inserted[j];
      } else if j > t {
        assert inserted[j - 1];
      }
    }
    forall j | 0 <= j < |ts1| && ins1[j] && IsGrouping(ts1[j], '{')
      ensures 1 <= j < t + 1 && j + 1 < |ts1| && !ins1[j - 1] && !ins1[j + 1]
        && IsKeyword(ts1[j - 1], "else") && IsKeyword(ts1[j + 1], "if")
    {
      if j < t {
        assert inserted[j] && IsGrouping(ts[j], '{');
      } else if j > t {
        // an inserted `{` after `t` would contradict the invariant
        assert false;
      }
    }
  }

  /** No `else if` appears at or before `t` once the `{` is in. */
  lemma OpeningNoElseIf(ts: seq<Token>, t: nat, o: Token)
    requires 1 <= t < |ts| && o.kind == Grouping && forall j :: 1 <= j < t ==> !ElseIfAt(ts, j)
    ensures forall j :: 1 <= j <= t ==> !ElseIfAt(Insert(ts, t, o), j)
  {
    var ts1 := Insert(ts, t, o);
    InsertAt(ts, t, o);
    forall j | 1 <= j <= t ensures !ElseIfAt(ts1, j) {
      if j < t { assert !ElseIfAt(ts, j); }
    }
  }

  lemma ClosingKeepsShape(ts1: seq<Token>, ins1: seq<bool>, t: nat, sub: nat, framed: seq<Token>, endLine: nat)
    requires HalfInv(ts1, ins1, t, endLine) && t + 1 < sub <= |ts1|
    requires sub < |ts1| ==> IsGrouping(ts1[sub], '{') || IsGrouping(ts1[sub], '}')
    ensures var c := Token(Grouping, "}", ts1[sub - 1].line);
      var ts2, ins2 := Insert(ts1, sub, c), Insert(ins1, sub, true);
      && ts2[0] == StartToken && !ins2[0]
      && ts2[|ts2| - 1].line == endLine
      && InsertedAreBraces(ts2, ins2)
      && OpeningsPlaced(ts2, ins2, t + 1)
      && (forall j :: 1 <= j < t + 1 ==> !ElseIfAt(ts2, j))
  {
    var c := Token(Grouping, "}", ts1[sub - 1].line);
    var ts2, ins2 := Insert(ts1, sub, c), Insert(ins1, sub, true);
    InsertAt(ts1, sub, c);
    InsertAt(ins1, sub, true);
    assert OpeningsPlaced(ts2, ins2, t + 1) by {
      forall j | 0 <= j < |ts2| && ins2[j] && IsGrouping(ts2[j], '{')
        ensures 1 <= j < t + 1 && j + 1 < |ts2| && !ins2[j - 1] && !ins2[j + 1]
          && IsKeyword(ts2[j - 1], "else") && IsKeyword(ts2[j + 1], "if")
      {
        assert j < sub;
      }
    }
    assert forall j :: 1 <= j < t + 1 ==> !ElseIfAt(ts2, j) by {
      forall j | 1 <= j < t + 1 ensures !ElseIfAt(ts2, j) {
        assert ts2[j] == ts1[j] && ts2[j - 1] == ts1[j - 1];
        assert !ElseIfAt(ts1, j);
      }
    }
  }

  lemma DepthInsert(ts: seq<Token>, i: nat, x: Token)
    requires i <= |ts|
    ensures Depth(Insert(ts, i, x)) == Depth(ts) + Depth([x])
  {
    assert Insert(ts, i, x) == (ts[..i] + [x]) + ts[i..];
    assert ts == ts[..i] + ts[i..];
    CountGroupingAppend(ts[..i] + [x], ts[i..], '{');
    CountGroupingAppend(ts[..i] + [x], ts[i..], '}');
    CountGroupingAppend(ts[..i], [x], '{');
    CountGroupingAppend(ts[..i], [x], '}');
    CountGroupingAppend(ts[..i], ts[i..], '{');
    CountGroupingAppend(ts[..i], ts[i..], '}');
  }

  /** The rewrite of the `else if` at `t` removes one `else` from the part of
      the list still to be scanned. */
  lemma MeasureAfterRewrite(before: seq<Token>, withOpening: seq<Token>, after: seq<Token>, t: nat, sub: nat)
    requires 1 <= t < |before| && IsKeyword(before[t - 1], "else")
    requires withOpening == Insert(before, t, Token(Grouping, "{", before[t].line))
    requires t < sub <= |withOpening|
    requires after == Insert(withOpening, sub, Token(Grouping, "}", withOpening[sub - 1].line))
    ensures ElsesFrom(after, t) + 1 == ElsesFrom(before, t - 1)
  {
    ElsesFromInsert(withOpening, sub, Token(Grouping, "}", withOpening[sub - 1].line), t);
    ElsesFromInsert(before, t, Token(Grouping, "{", before[t].line), t);
  }

  /** Positions without an `else if` are passed over unchanged. */
  lemma {:induction false} RewriteFromSkip(ts: seq<Token>, t: nat, u: nat)
    requires 1 <= t <= u <= |ts| && forall j :: t <= j < u ==> !ElseIfAt(ts, j)
    ensures RewriteFrom(ts, t) == RewriteFrom(ts, u)
    decreases u - t
  {
    if t < u {
      RewriteFromSkip(ts, t + 1, u);
    }
  }

  const IfAt0 := Token(Keyword, "if", 0)
  const ElseAt0 := Token(Keyword, "else", 0)
  const OpenParenAt0 := Token(Grouping, "(", 0)
  const CloseParenAt0 := Token(Grouping, ")", 0)
  const OpenBraceAt0 := Token(Grouping, "{", 0)
  const CloseBraceAt0 := Token(Grouping, "}", 0)

  /** The tokens of `if (a) { b } else if (c) { d }` on line 0. */
  function ExampleInput(a: Token, b: Token, c: Token, d: Token): seq<Token> {
    [IfAt0, OpenParenAt0, a, CloseParenAt0, OpenBraceAt0, b, CloseBraceAt0,
     ElseAt0, IfAt0, OpenParenAt0, c, CloseParenAt0, OpenBraceAt0, d, CloseBraceAt0]
  }

  /** The tokens of `Start if (a) { b } else { if (c) { d } } End`. */
  function ExampleOutput(a: Token, b: Token, c: Token, d: Token): seq<Token> {
    [StartToken, IfAt0, OpenParenAt0, a, CloseParenAt0, OpenBraceAt0, b, CloseBraceAt0,
     ElseAt0, OpenBraceAt0, IfAt0, OpenParenAt0, c, CloseParenAt0, OpenBraceAt0, d, CloseBraceAt0,
     CloseBraceAt0, EndToken(0)]
  }

  /** The scan after the `{` inserted into the example stops at the `}` that
      closes the `else if` block. */
  lemma ExampleScan(w: seq<Token>, c: Token, d: Token)
    requires c.kind == Text && d.kind == Text
    requires |w| == 18 && w[9] == OpenBraceAt0 && w[10] == IfAt0
    requires w[11] == OpenParenAt0 && w[12] == c && w[13] == CloseParenAt0
    requires w[14] == OpenBraceAt0 && w[15] == d && w[16] == CloseBraceAt0
    requires w[17] == EndToken(0)
    ensures FirstClose(w, 10, 10) == Some(16)
  {
    DepthNext(w, 10, 10);
    DepthNext(w, 10, 11);
    DepthNext(w, 10, 12);
    DepthNext(w, 10, 13);
    DepthNext(w, 10, 14);
    DepthNext(w, 10, 15);
    DepthNext(w, 10, 16);
    assert w[10..10] == [];
    forall j | 10 <= j < 16 ensures !CloseAt(w, 10, j) {
    }
    FirstCloseIs(w, 10, 10, 16);
  }

  /** The example after the `{` goes in before its second `if`. */
  lemma ExampleOpened(a: Token, b: Token, c: Token, d: Token)
    ensures var w := Insert(Framed(ExampleInput(a, b, c, d)), 9, OpenBraceAt0);
      && |w| == 18 && w[9] == OpenBraceAt0 && w[10] == IfAt0
      && w[11] == OpenParenAt0 && w[12] == c && w[13] == CloseParenAt0
      && w[14] == OpenBraceAt0 && w[15] == d && w[16] == CloseBraceAt0
      && w[17] == EndToken(0)
  {
    var f := Framed(ExampleInput(a, b, c, d));
    assert |f| == 17 && f[16] == EndToken(0);
    assert forall i :: 9 <= i <= 15 ==> f[i] == ExampleInput(a, b, c, d)[i - 1];
    InsertAt(f, 9, OpenBraceAt0);
  }

  /** Both braces in place give the expected output. */
  lemma ExampleClosed(a: Token, b: Token, c: Token, d: Token)
    ensures var w := Insert(Framed(ExampleInput(a, b, c, d)), 9, OpenBraceAt0);
      Insert(w, 16, CloseBraceAt0) == ExampleOutput(a, b, c, d)
  {
    var before := [StartToken, IfAt0, OpenParenAt0, a, CloseParenAt0, OpenBraceAt0, b, CloseBraceAt0, ElseAt0];
    var inner := [IfAt0, OpenParenAt0, c, CloseParenAt0, OpenBraceAt0, d];
    var f := Framed(ExampleInput(a, b, c, d));
    assert f == before + inner + [CloseBraceAt0, EndToken(0)];
    var w := Insert(f, 9, OpenBraceAt0);
    assert w == before + [OpenBraceAt0] + inner + [CloseBraceAt0, EndToken(0)];
    assert Insert(w, 16, CloseBraceAt0) == before + [OpenBraceAt0] + inner + [CloseBraceAt0, CloseBraceAt0, EndToken(0)];
  }

  /** The one rewrite of the example. */
  lemma ExampleRewrite(a: Token, b: Token, c: Token, d: Token)
    requires a.kind == Text && b.kind == Text && c.kind == Text && d.kind == Text
    requires c.line == 0 && d.line == 0
    ensures var f := Framed(ExampleInput(a, b, c, d));
      ElseIfAt(f, 9) && RewriteAt(f, 9) == Ok(ExampleOutput(a, b, c, d))
  {
    var f := Framed(ExampleInput(a, b, c, d));
    assert f[8] == ElseAt0 && f[9] == IfAt0;
    var w := Insert(f, 9, OpenBraceAt0);
    ExampleOpened(a, b, c, d);
    ExampleScan(w, c, d);
    ExampleClosed(a, b, c, d);
  }

  /** Only the second `if` of the example follows an `else`. */
  lemma ExampleElseIfs(a: Token, b: Token, c: Token, d: Token)
    requires a.kind == Text && b.kind == Text && c.kind == Text && d.kind == Text
    ensures forall j :: 1 <= j < 9 ==> !ElseIfAt(Framed(ExampleInput(a, b, c, d)), j)
    ensures ElseIfFree(ExampleOutput(a, b, c, d))
  {
    var f := Framed(ExampleInput(a, b, c, d));
    assert |f| == 17 && forall i :: 1 <= i <= 8 ==> f[i] == ExampleInput(a, b, c, d)[i - 1];
  }

  /** `if (a) { b } else if (c) { d }` on one line comes back as
      `Start if (a) { b } else { if (c) { d } } End`: the `{` right before the
      `if`, the `}` at the end of the `else if` block. */
  lemma ElseIfExample(a: Token, b: Token, c: Token, d: Token)
    requires a.kind == Text && b.kind == Text && c.kind == Text && d.kind == Text
    requires c.line == 0 && d.line == 0
    ensures Normalise(ExampleInput(a, b, c, d)) == Ok(ExampleOutput(a, b, c, d))
  {
    var f := Framed(ExampleInput(a, b, c, d));
    var r := ExampleOutput(a, b, c, d);
    ExampleElseIfs(a, b, c, d);
    RewriteFromSkip(f, 1, 9);
    ExampleRewrite(a, b, c, d);
    assert RewriteFrom(f, 9) == RewriteFrom(r, 10);
    RewriteFromSkip(r, 10, |r|);
  }
}
