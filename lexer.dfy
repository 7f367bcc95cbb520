/** The lexer: a single-cursor scanner from source text to tokens.

    The first half is a functional description of one scanning step
    (ScanAt) and of the whole scan (LexAcc, Tokenize), with the properties
    the lexer promises proved about it. The second half is the Lexer class,
    whose methods move the `current` cursor and append to `tokens` exactly as
    the C++ methods do, each proved to agree with the functional description. */
module Lexer {
  import opened Wrappers
  import opened Tokens

  // ---------------------------------------------------------------------
  // Character classes of <cctype> in the "C" locale

  predicate IsDigit(c: char) { '0' <= c <= '9' }
  predicate IsAlpha(c: char) { 'a' <= c <= 'z' || 'A' <= c <= 'Z' }
  predicate IsAlnum(c: char) { IsDigit(c) || IsAlpha(c) }
  predicate IsSpace(c: char) {
    c == ' ' || c == '\t' || c == '\n' || c == '\U{000B}' || c == '\U{000C}' || c == '\r'
  }

  /** `source[i]`, where reading at or past the end yields the terminating NUL. */
  function CharAt(s: string, i: nat): char {
    if i < |s| then s[i] else '\0'
  }

  // ---------------------------------------------------------------------
  // The scanning loops, as functions

  /** The condition each scanning loop advances over. */
  datatype CharClass = Digits | Alnums | NonSpaces | NotNewlines

  predicate InClass(c: char, cls: CharClass) {
    match cls
    case Digits => IsDigit(c)
    case Alnums => IsAlnum(c)
    case NonSpaces => !IsSpace(c)
    case NotNewlines => c != '\n'
  }

  /** Where a loop that advances over `cls` from index i stops: the first index
      at or after i that is the end of input or holds a character outside `cls`. */
  function RunEnd(s: string, i: nat, cls: CharClass): (r: nat)
    requires i <= |s|
    ensures i <= r <= |s|
    ensures forall k :: i <= k < r ==> InClass(s[k], cls)
    ensures r == |s| || !InClass(s[r], cls)
    decreases |s| - i
  {
    if i == |s| || !InClass(s[i], cls) then i else RunEnd(s, i + 1, cls)
  }

  /** The index of the quote that closes a string literal whose body starts at
      k, or None when input ends first. A backslash makes the scan step over
      the character after it, so an escaped quote does not close the literal. */
  function StringClose(s: string, k: nat): (r: Option<nat>)
    requires k <= |s|
    ensures r.Some? ==> k <= r.value < |s| && s[r.value] == '"'
    decreases |s| - k
  {
    if k == |s| then None
    else if s[k] == '"' then Some(k)
    else if s[k] == '\\' then (if k + 1 == |s| then None else StringClose(s, k + 2))
    else StringClose(s, k + 1)
  }

  /** The keyword table: `print`, `if` and `else` are keywords, every other
      word is an identifier. */
  function WordKind(text: string): (k: TokenKind)
    ensures k == PRINT <==> text == "print"
    ensures k == IF <==> text == "if"
    ensures k == ELSE <==> text == "else"
    ensures k == IDENTIFIER <==> text != "print" && text != "if" && text != "else"
  {
    if text == "print" then PRINT
    else if text == "if" then IF
    else if text == "else" then ELSE
    else IDENTIFIER
  }

  /** The kind of a character that is a token on its own. */
  function OneCharKind(c: char): Option<TokenKind> {
    match c
    case '+' => Some(PLUS)
    case '-' => Some(MINUS)
    case '*' => Some(MUL)
    case '/' => Some(DIV)
    case '(' => Some(LPAREN)
    case ')' => Some(RPAREN)
    case ',' => Some(COMMA)
    case ':' => Some(COLON)
    case _ => None
  }

  /** The kinds some scanning step can produce: every kind except the end
      marker and the two declared kinds no scanning path emits. */
  predicate Scannable(k: TokenKind) {
    k != END_OF_FILE && k != SEMICOLON && k != TAB
  }

  // ---------------------------------------------------------------------
  // One scanning step

  /** The outcome of scanning the lexeme that starts at some index: the
      tokens it adds (none or one) and where the cursor then is, or the
      unterminated-string failure. */
  datatype Scan = Emit(tokens: seq<Token>, next: nat) | Unterminated

  /** The operator at index i is one of `> < = !`: the character two past the
      operator (the one after the next) decides. A space there makes the
      compound operator and consumes one extra character, whatever it is. */
  function Lookahead(s: string, i: nat, compound: Token, single: seq<Token>): Scan {
    if CharAt(s, i + 2) == ' ' then Emit([compound], i + 2) else Emit(single, i + 1)
  }

  /** A word: starting at `start`, the cursor has reached `from` and advances
      over letters and digits. */
  function ScanWord(s: string, start: nat, from: nat): Scan
    requires start < from <= |s|
  {
    var e := RunEnd(s, from, Alnums);
    var text := s[start..e];
    Emit([Token(WordKind(text), text)], e)
  }

  /** A number: a digit run, then a lookahead over non-space characters that
      would rescan the run as a word if it stopped at a letter. */
  function ScanNumber(s: string, i: nat): Scan
    requires i < |s|
  {
    var d := RunEnd(s, i + 1, Digits);
    var w := RunEnd(s, d, NonSpaces);
    if IsAlpha(CharAt(s, w)) then ScanWord(s, i, w)
    else Emit([Token(INTEGER, s[i..d])], d)
  }

  /** Scanning the lexeme that starts at index i. */
  function ScanAt(s: string, i: nat): (r: Scan)
    requires i < |s|
    ensures r.Emit? ==> i < r.next <= |s| && |r.tokens| <= 1
    ensures r.Emit? ==> forall t :: t in r.tokens ==> Scannable(t.kind)
    ensures r.Unterminated? ==> s[i] == '"'
  {
    var c := s[i];
    if OneCharKind(c).Some? then Emit([Token(OneCharKind(c).value, [c])], i + 1)
    else if c == '>' then Lookahead(s, i, Token(GREATER_EQUAL, ">="), [Token(GREATER, ">")])
    else if c == '<' then Lookahead(s, i, Token(LESS_EQUAL, "<="), [Token(LESS, "<")])
    else if c == '!' then Lookahead(s, i, Token(NOT_EQUAL, "!="), [])
    else if c == '=' then Lookahead(s, i, Token(EQUAL, "=="), [Token(ASSIGN, "=")])
    else if c == '"' then
      match StringClose(s, i + 1)
      case None => Unterminated
      case Some(k) => Emit([Token(STRING, s[i + 1..k])], k + 1)
    else if c == '#' then Emit([], RunEnd(s, i + 1, NotNewlines))
    else if IsDigit(c) then ScanNumber(s, i)
    else if IsAlpha(c) then ScanWord(s, i, i + 1)
    else if IsSpace(c) then Emit([], i + 1)
    else Emit([Token(UNKNOWN, [c])], i + 1)
  }

  // ---------------------------------------------------------------------
  // The whole scan

  const EndOfFile: Token := Token(END_OF_FILE, "")

  /** Scanning from index i with `acc` already produced: step until the end
      of input, then add the end-of-file token. */
  function LexAcc(s: string, i: nat, acc: seq<Token>): Result<seq<Token>>
    requires i <= |s|
    decreases |s| - i
  {
    if i == |s| then Ok(acc + [EndOfFile])
    else match ScanAt(s, i)
      case Unterminated => Err(UnterminatedString)
      case Emit(ts, j) => LexAcc(s, j, acc + ts)
  }

  /** The tokens of a source text, as a fresh lexer produces them. */
  function Tokenize(s: string): Result<seq<Token>> {
    LexAcc(s, 0, [])
  }

  // ---------------------------------------------------------------------
  // Properties of the scan

  /** What a successful scan from `acc` looks like: `acc` first, the
      end-of-file token last, and only scannable kinds in between. */
  ghost predicate Shaped(r: Result<seq<Token>>, acc: seq<Token>) {
    r.Ok? ==>
      && |r.value| > |acc|
      && r.value[..|acc|] == acc
      && r.value[|r.value| - 1] == EndOfFile
      && forall k :: 0 <= k < |r.value| - 1 ==> Scannable(r.value[k].kind)
  }

  /** A result shaped from `acc + ts` is shaped from `acc`, when `acc` and
      `ts` hold scannable kinds only. */
  lemma ShapedPrefix(r: Result<seq<Token>>, acc: seq<Token>, ts: seq<Token>)
    requires Shaped(r, acc + ts)
    ensures Shaped(r, acc)
  {
    if r.Ok? {
      assert r.value[..|acc + ts|][..|acc|] == r.value[..|acc|];
    }
  }

  lemma AppendScannable(acc: seq<Token>, ts: seq<Token>)
    requires forall k :: 0 <= k < |acc| ==> Scannable(acc[k].kind)
    requires forall t :: t in ts ==> Scannable(t.kind)
    ensures forall k :: 0 <= k < |acc + ts| ==> Scannable((acc + ts)[k].kind)
  {
    forall k | 0 <= k < |acc + ts| ensures Scannable((acc + ts)[k].kind) {
      if k >= |acc| { assert (acc + ts)[k] in ts; }
    }
  }

  lemma {:induction false} LexAccShape(s: string, i: nat, acc: seq<Token>)
    requires i <= |s|
    requires forall k :: 0 <= k < |acc| ==> Scannable(acc[k].kind)
    ensures Shaped(LexAcc(s, i, acc), acc)
    decreases |s| - i
  {
    if i < |s| {
      var sc := ScanAt(s, i);
      if sc.Emit? {
        AppendScannable(acc, sc.tokens);
        LexAccShape(s, sc.next, acc + sc.tokens);
        ShapedPrefix(LexAcc(s, sc.next, acc + sc.tokens), acc, sc.tokens);
      }
    }
  }

  /** A successful scan ends in exactly one END_OF_FILE token with an empty
      lexeme, after every scanned token; no scanned token is END_OF_FILE,
      SEMICOLON or TAB. */
  lemma TokenizeEndsWithEndOfFile(s: string)
    ensures Tokenize(s).Ok? ==>
      var ts := Tokenize(s).value;
      && |ts| > 0
      && ts[|ts| - 1] == Token(END_OF_FILE, "")
      && forall k :: 0 <= k < |ts| - 1 ==>
           ts[k].kind != END_OF_FILE && ts[k].kind != SEMICOLON && ts[k].kind != TAB
  {
    LexAccShape(s, 0, []);
    if Tokenize(s).Ok? {
      var ts := Tokenize(s).value;
      forall k | 0 <= k < |ts| - 1
        ensures ts[k].kind != END_OF_FILE && ts[k].kind != SEMICOLON && ts[k].kind != TAB
      {
        assert Scannable(ts[k].kind);
      }
    }
  }

  /** The tokens of a text made only of one-character operators. */
  function OperatorTokens(s: string): seq<Token>
    requires forall k :: 0 <= k < |s| ==> OneCharKind(s[k]).Some?
  {
    if s == [] then [] else [Token(OneCharKind(s[0]).value, [s[0]])] + OperatorTokens(s[1..])
  }

  lemma {:induction false} LexAccOperators(s: string, i: nat, acc: seq<Token>)
    requires i <= |s|
    requires forall k :: i <= k < |s| ==> OneCharKind(s[k]).Some?
    ensures LexAcc(s, i, acc) == Ok(acc + OperatorTokens(s[i..]) + [EndOfFile])
    decreases |s| - i
  {
    if i < |s| {
      var t := Token(OneCharKind(s[i]).value, [s[i]]);
      assert ScanAt(s, i) == Emit([t], i + 1);
      LexAccOperators(s, i + 1, acc + [t]);
      var rest := s[i + 1..];
      assert s[i..][1..] == rest;
      assert s[i..][0] == s[i];
      assert OperatorTokens(s[i..]) == [t] + OperatorTokens(rest);
      calc {
        LexAcc(s, i, acc);
        LexAcc(s, i + 1, acc + [t]);
        Ok(acc + [t] + OperatorTokens(rest) + [EndOfFile]);
        { assert acc + [t] + OperatorTokens(rest) == acc + ([t] + OperatorTokens(rest)); }
        Ok(acc + OperatorTokens(s[i..]) + [EndOfFile]);
      }
    } else {
      assert s[i..] == [];
      assert acc + [] == acc;
    }
  }

  /** Each of `+ - * / ( ) , :` is one token of its own kind whose lexeme is
      that character: a text of such characters scans to one token each. */
  lemma TokenizeOperators(s: string)
    requires forall k :: 0 <= k < |s| ==> OneCharKind(s[k]).Some?
    ensures Tokenize(s) == Ok(OperatorTokens(s) + [Token(END_OF_FILE, "")])
    ensures |OperatorTokens(s)| == |s|
    ensures forall k :: 0 <= k < |s| ==>
      OperatorTokens(s)[k] == Token(OneCharKind(s[k]).value, [s[k]])
  {
    OperatorTokensAt(s);
    LexAccOperators(s, 0, []);
    assert s[0..] == s;
    assert [] + OperatorTokens(s) == OperatorTokens(s);
  }

  lemma {:induction false} OperatorTokensAt(s: string)
    requires forall k :: 0 <= k < |s| ==> OneCharKind(s[k]).Some?
    ensures |OperatorTokens(s)| == |s|
    ensures forall k :: 0 <= k < |s| ==>
      OperatorTokens(s)[k] == Token(OneCharKind(s[k]).value, [s[k]])
  {
    if s != [] {
      OperatorTokensAt(s[1..]);
      forall k | 1 <= k < |s|
        ensures OperatorTokens(s)[k] == Token(OneCharKind(s[k]).value, [s[k]])
      {
        assert s[1..][k - 1] == s[k];
      }
    }
  }

  /** A `#` skips up to the next newline, which it leaves for the next step,
      or to the end of input, and adds no token. */
  lemma CommentSkipsLine(s: string, i: nat)
    requires i < |s| && s[i] == '#'
    ensures ScanAt(s, i).Emit? && ScanAt(s, i).tokens == []
    ensures var n := ScanAt(s, i).next;
      && (n == |s| || s[n] == '\n')
      && forall k :: i < k < n ==> s[k] != '\n'
  {
  }

  /** A comment that runs to the end of the input leaves only the end marker. */
  lemma CommentToEndOfInput(s: string, i: nat, acc: seq<Token>)
    requires i < |s| && s[i] == '#'
    requires forall k :: i <= k < |s| ==> s[k] != '\n'
    ensures LexAcc(s, i, acc) == Ok(acc + [EndOfFile])
  {
    assert RunEnd(s, i + 1, NotNewlines) == |s|;
    assert ScanAt(s, i) == Emit([], |s|);
    assert acc + [] == acc;
  }

  /** Without quotes or backslashes before it, the first quote closes a literal. */
  lemma {:induction false} StringClosesAtFirstQuote(s: string, k: nat, j: nat)
    requires k <= j < |s| && s[j] == '"'
    requires forall m :: k <= m < j ==> s[m] != '"' && s[m] != '\\'
    ensures StringClose(s, k) == Some(j)
    decreases j - k
  {
    if k < j {
      StringClosesAtFirstQuote(s, k + 1, j);
    }
  }

  /** A backslash makes the scan step over the next character, even a quote. */
  lemma StringEscapeSkipped(s: string, k: nat)
    requires k + 1 < |s| && s[k] == '\\'
    ensures StringClose(s, k) == StringClose(s, k + 2)
  {
  }

  /** With no quote left in the input a literal is never closed. */
  lemma {:induction false} StringWithoutQuote(s: string, k: nat)
    requires k <= |s|
    requires forall m :: k <= m < |s| ==> s[m] != '"'
    ensures StringClose(s, k) == None
    decreases |s| - k
  {
    if k < |s| {
      if s[k] == '\\' {
        if k + 1 < |s| {
          StringWithoutQuote(s, k + 2);
        }
      } else {
        StringWithoutQuote(s, k + 1);
      }
    }
  }

  /** The number of backslashes immediately before index m, counting no
      further back than k. */
  function BackslashRun(s: string, k: nat, m: nat): nat
    requires k <= m <= |s|
    decreases m
  {
    if m > k && s[m - 1] == '\\' then BackslashRun(s, k, m - 1) + 1 else 0
  }

  /** A quote at j closes a literal whose body starts at k when it is not
      escaped: an even number of backslashes stands right before it. */
  predicate ClosingQuote(s: string, k: nat, j: nat) {
    k <= j < |s| && s[j] == '"' && BackslashRun(s, k, j) % 2 == 0
  }

  /** Starting the count at an unescaped position c instead of k does not
      change whether a later position is escaped. */
  lemma {:induction false} BackslashRunFrom(s: string, k: nat, c: nat, m: nat)
    requires k <= c <= m <= |s| && BackslashRun(s, k, c) % 2 == 0
    ensures BackslashRun(s, k, m) % 2 == BackslashRun(s, c, m) % 2
    decreases m
  {
    if m > c && s[m - 1] == '\\' {
      BackslashRunFrom(s, k, c, m - 1);
    }
  }

  /** The string loop's result on every input: the first closing quote, or
      None when there is none. */
  lemma {:induction false} StringCloseFindsFirst(s: string, k: nat)
    requires k <= |s|
    ensures StringClose(s, k).Some? ==>
      && ClosingQuote(s, k, StringClose(s, k).value)
      && forall m :: k <= m < StringClose(s, k).value ==> !ClosingQuote(s, k, m)
    ensures StringClose(s, k).None? ==> forall m :: k <= m < |s| ==> !ClosingQuote(s, k, m)
    decreases |s| - k
  {
    if k < |s| && s[k] != '"' {
      var c := if s[k] == '\\' then k + 2 else k + 1;
      if c <= |s| {
        assert BackslashRun(s, k, c) % 2 == 0 by {
          if s[k] == '\\' {
            assert BackslashRun(s, k, k + 1) == 1;
          }
        }
        StringCloseFindsFirst(s, c);
        assert StringClose(s, k) == StringClose(s, c);
        forall m | c <= m < |s|
          ensures ClosingQuote(s, k, m) <==> ClosingQuote(s, c, m)
        {
          BackslashRunFrom(s, k, c, m);
        }
        forall m | k <= m < c
          ensures !ClosingQuote(s, k, m)
        {
          if m == k + 1 {
            assert BackslashRun(s, k, k + 1) == 1;
          }
        }
      }
    }
  }

  /** tokenizeString closes a literal at j exactly when j holds the first
      quote not escaped by a backslash. */
  lemma StringCloseSome(s: string, k: nat, j: nat)
    requires k <= |s|
    ensures StringClose(s, k) == Some(j) <==>
      ClosingQuote(s, k, j) && forall m :: k <= m < j ==> !ClosingQuote(s, k, m)
  {
    StringCloseFindsFirst(s, k);
    if ClosingQuote(s, k, j) && forall m :: k <= m < j ==> !ClosingQuote(s, k, m) {
      match StringClose(s, k)
      case None =>
      case Some(v) =>
        assert !(v < j) && !(j < v);
    }
  }

  /** tokenizeString reaches the end of input exactly when no unescaped quote
      follows the opening one. */
  lemma StringCloseNone(s: string, k: nat)
    requires k <= |s|
    ensures StringClose(s, k).None? <==> forall m :: k <= m < |s| ==> !ClosingQuote(s, k, m)
  {
    StringCloseFindsFirst(s, k);
  }

  /** A string token's lexeme is the text strictly between its quotes, the
      escapes kept as written; the cursor ends just past the closing quote. */
  lemma StringTokenLexeme(s: string, i: nat)
    requires i < |s| && s[i] == '"' && StringClose(s, i + 1).Some?
    ensures var j := StringClose(s, i + 1).value;
      ScanAt(s, i) == Emit([Token(STRING, s[i + 1..j])], j + 1) && s[j] == '"'
  {
  }

  /** Reaching the end of input inside a literal (by StringCloseNone: no
      unescaped quote follows the opening one) fails the whole scan with the
      unterminated-string error, so no STRING token is produced. */
  lemma UnterminatedStringFails(s: string, i: nat, acc: seq<Token>)
    requires i < |s| && s[i] == '"'
    requires StringClose(s, i + 1).None?
    ensures LexAcc(s, i, acc) == Err(UnterminatedString)
  {
  }

  /** An escaped quote at the end of input leaves the literal open:
      `"a\"` fails with the unterminated-string error. */
  lemma EscapedQuoteUnterminated()
    ensures Tokenize("\"a\\\"") == Err(UnterminatedString)
  {
    var s := "\"a\\\"";
    assert StringClose(s, 1) == None by {
      assert StringClose(s, 1) == StringClose(s, 2);
      assert StringClose(s, 2) == StringClose(s, 4);
    }
  }

  /** An escaped quote does not end a literal: `"a\"b"` is one STRING token
      whose lexeme keeps the backslash. */
  lemma EscapedQuoteExample()
    ensures Tokenize("\"a\\\"b\"") == Ok([Token(STRING, "a\\\"b"), Token(END_OF_FILE, "")])
  {
    var s := "\"a\\\"b\"";
    assert StringClose(s, 1) == Some(5) by {
      assert StringClose(s, 2) == StringClose(s, 4);
      assert StringClose(s, 4) == StringClose(s, 5);
    }
    assert s[1..5] == "a\\\"b";
    assert ScanAt(s, 0) == Emit([Token(STRING, "a\\\"b")], 6);
    assert |s| == 6;
    assert [] + [Token(STRING, "a\\\"b")] == [Token(STRING, "a\\\"b")];
    assert LexAcc(s, 0, []) == LexAcc(s, 6, [Token(STRING, "a\\\"b")]);
    assert [Token(STRING, "a\\\"b")] + [EndOfFile] == [Token(STRING, "a\\\"b"), EndOfFile];
    assert LexAcc(s, 6, [Token(STRING, "a\\\"b")]) == Ok([Token(STRING, "a\\\"b"), EndOfFile]);
    assert Tokenize(s) == LexAcc(s, 0, []);
  }

  /** An alphabetic character starts a maximal run of letters and digits,
      which becomes a keyword token or an IDENTIFIER with that lexeme. */
  lemma WordIsMaximalRun(s: string, i: nat)
    requires i < |s| && IsAlpha(s[i])
    ensures ScanAt(s, i).Emit?
    ensures var sc := ScanAt(s, i); var e := sc.next;
      && (forall k :: i <= k < e ==> IsAlnum(s[k]))
      && (e == |s| || !IsAlnum(s[e]))
      && sc.tokens == [Token(WordKind(s[i..e]), s[i..e])]
  {
  }

  /** `>`, `<`, `=` and `!` look at the character two past the operator. */
  lemma LookaheadRule(s: string, i: nat)
    requires i < |s| && (s[i] == '>' || s[i] == '<' || s[i] == '=' || s[i] == '!')
    ensures var sc := ScanAt(s, i);
      && sc.Emit?
      && (CharAt(s, i + 2) == ' ' ==> sc.next == i + 2 && |sc.tokens| == 1)
      && (CharAt(s, i + 2) != ' ' ==> sc.next == i + 1 && (|sc.tokens| == 1 <==> s[i] != '!'))
      && (s[i] == '>' ==> sc.tokens == [if CharAt(s, i + 2) == ' ' then Token(GREATER_EQUAL, ">=") else Token(GREATER, ">")])
      && (s[i] == '<' ==> sc.tokens == [if CharAt(s, i + 2) == ' ' then Token(LESS_EQUAL, "<=") else Token(LESS, "<")])
      && (s[i] == '=' ==> sc.tokens == [if CharAt(s, i + 2) == ' ' then Token(EQUAL, "==") else Token(ASSIGN, "=")])
      && (s[i] == '!' ==> sc.tokens == if CharAt(s, i + 2) == ' ' then [Token(NOT_EQUAL, "!=")] else [])
  {
  }

  /** The lookahead skips the character right after the operator: `x >= 1`
      gives GREATER_EQUAL, `x>=1` gives GREATER then ASSIGN, and `x >  1`,
      with two spaces and no `=`, gives GREATER_EQUAL as well. */
  lemma LookaheadExamples()
    ensures ScanAt("x >= 1", 2) == Emit([Token(GREATER_EQUAL, ">=")], 4)
    ensures ScanAt("x>=1", 1) == Emit([Token(GREATER, ">")], 2)
    ensures ScanAt("x>=1", 2) == Emit([Token(ASSIGN, "=")], 3)
    ensures ScanAt("x >  1", 2) == Emit([Token(GREATER_EQUAL, ">=")], 4)
  {
  }

  /** The lookahead of ScanNumber ends at whitespace or at the end of input,
      where no letter can be. */
  lemma ScanNumberDigitRun(s: string, i: nat)
    requires i < |s|
    ensures var d := RunEnd(s, i + 1, Digits);
      ScanNumber(s, i) == Emit([Token(INTEGER, s[i..d])], d)
  {
    var d := RunEnd(s, i + 1, Digits);
    var w := RunEnd(s, d, NonSpaces);
    assert !IsAlpha(CharAt(s, w));
  }

  /** A digit starts an INTEGER whose lexeme is the maximal digit run: the
      lookahead stops only at whitespace or at the end of input, never at a
      letter, so the rescan as a word cannot happen. */
  lemma NumberIsMaximalDigitRun(s: string, i: nat)
    requires i < |s| && IsDigit(s[i])
    ensures ScanAt(s, i).Emit?
    ensures var sc := ScanAt(s, i); var d := sc.next;
      && (forall k :: i <= k < d ==> IsDigit(s[k]))
      && (d == |s| || !IsDigit(s[d]))
      && sc.tokens == [Token(INTEGER, s[i..d])]
  {
    ScanNumberDigitRun(s, i);
  }

  /** Whitespace adds no token; any character no rule claims is one UNKNOWN
      token whose lexeme is that character. */
  lemma OtherCharacters(s: string, i: nat)
    requires i < |s|
    requires OneCharKind(s[i]).None? && !IsAlnum(s[i])
    requires s[i] !in {'>', '<', '!', '=', '"', '#'}
    ensures IsSpace(s[i]) ==> ScanAt(s, i) == Emit([], i + 1)
    ensures !IsSpace(s[i]) ==> ScanAt(s, i) == Emit([Token(UNKNOWN, [s[i]])], i + 1)
  {
  }

  // ---------------------------------------------------------------------
  // The lexer object

  class Lexer {
    const source: string
    var tokens: seq<Token>
    var start: nat
    var current: nat

    /** The cursor invariant. */
    ghost predicate Valid()
      reads this
    {
      start <= current <= |source|
    }

    constructor (source: string)
      ensures this.source == source
      ensures tokens == [] && start == 0 && current == 0
      ensures Valid()
    {
      this.source := source;
      tokens := [];
      start := 0;
      current := 0;
    }

    function IsAtEnd(): bool
      reads this
    {
      current >= |source|
    }

    /** The character under the cursor; the terminating NUL at the end. */
    function Peek(): (c: char)
      reads this
    {
      if IsAtEnd() then '\0' else source[current]
    }

    method Advance() returns (c: char)
      requires current < |source|
      modifies this`current
      ensures c == source[old(current)] && current == old(current) + 1
    {
      c := source[current];
      current := current + 1;
    }

    method AddToken(kind: TokenKind, text: string)
      modifies this`tokens
      ensures tokens == old(tokens) + [Token(kind, text)]
    {
      tokens := tokens + [Token(kind, text)];
    }

    /** Scans from the cursor to the end of input and appends the end-of-file
        token; a fresh lexer thereby produces Tokenize(source). */
    method Tokenize() returns (r: Result<seq<Token>>)
      requires Valid()
      modifies this`start, this`current, this`tokens
      ensures Valid()
      ensures r == LexAcc(source, old(current), old(tokens))
      ensures r.Ok? ==> tokens == r.value && current == |source|
    {
      while !IsAtEnd()
        invariant Valid()
        invariant LexAcc(source, current, tokens) == LexAcc(source, old(current), old(tokens))
        decreases |source| - current
      {
        start := current;
        var ok := ScanToken();
        if !ok {
          return Err(UnterminatedString);
        }
      }
      AddToken(END_OF_FILE, "");
      r := Ok(tokens);
    }

    /** One scanning step from `start`. */
    method ScanToken() returns (ok: bool)
      requires Valid() && start == current < |source|
      modifies this`current, this`tokens
      ensures start <= current <= |source|
      ensures ok <==> ScanAt(source, start).Emit?
      ensures ok ==> tokens == old(tokens) + ScanAt(source, start).tokens
      ensures ok ==> current == ScanAt(source, start).next
    {
      ok := true;
      var c := Advance();
      match c
      case '+' => AddToken(PLUS, "+");
      case '-' => AddToken(MINUS, "-");
      case '*' => AddToken(MUL, "*");
      case '/' => AddToken(DIV, "/");
      case '(' => AddToken(LPAREN, "(");
      case ')' => AddToken(RPAREN, ")");
      case ',' => AddToken(COMMA, ",");
      case ':' => AddToken(COLON, ":");
      case '>' => TokenizeGreater();
      case '<' => TokenizeLess();
      case '!' => TokenizeNotEqual();
      case '=' => TokenizeEqual();
      case '"' => ok := TokenizeString();
      case '#' => SkipComment();
      case _ =>
        if IsDigit(c) {
          ScanNumberDigitRun(source, start);
          TokenizeNumber();
        } else if IsAlpha(c) {
          TokenizeIdentifier();
        } else if !IsSpace(c) {
          AddToken(UNKNOWN, [c]);
        }
    }

    /** The comment case of scanToken: skips to the next newline, which is
        left for the next step, or to the end of input. */
    method SkipComment()
      requires start < current <= |source|
      modifies this`current
      ensures Valid()
      ensures current == RunEnd(source, old(current), NotNewlines)
    {
      while Peek() != '\n' && !IsAtEnd()
        invariant old(current) <= current <= |source|
        invariant RunEnd(source, current, NotNewlines) == RunEnd(source, old(current), NotNewlines)
        decreases |source| - current
      {
        var skipped := Advance();
      }
    }

    method TokenizeGreater()
      requires current == start + 1 <= |source|
      modifies this`current, this`tokens
      ensures Valid()
      ensures var sc := Lookahead(source, start, Token(GREATER_EQUAL, ">="), [Token(GREATER, ">")]);
        tokens == old(tokens) + sc.tokens && current == sc.next
    {
      var lookahead := current + 1;
      if CharAt(source, lookahead) == ' ' {
        AddToken(GREATER_EQUAL, ">=");
        var skipped := Advance();
      } else {
        AddToken(GREATER, ">");
      }
    }

    method TokenizeLess()
      requires current == start + 1 <= |source|
      modifies this`current, this`tokens
      ensures Valid()
      ensures var sc := Lookahead(source, start, Token(LESS_EQUAL, "<="), [Token(LESS, "<")]);
        tokens == old(tokens) + sc.tokens && current == sc.next
    {
      var lookahead := current + 1;
      if CharAt(source, lookahead) == ' ' {
        AddToken(LESS_EQUAL, "<=");
        var skipped := Advance();
      } else {
        AddToken(LESS, "<");
      }
    }

    method TokenizeNotEqual()
      requires current == start + 1 <= |source|
      modifies this`current, this`tokens
      ensures Valid()
      ensures var sc := Lookahead(source, start, Token(NOT_EQUAL, "!="), []);
        tokens == old(tokens) + sc.tokens && current == sc.next
    {
      var lookahead := current + 1;
      if CharAt(source, lookahead) == ' ' {
        AddToken(NOT_EQUAL, "!=");
        var skipped := Advance();
      }
    }

    method TokenizeEqual()
      requires current == start + 1 <= |source|
      modifies this`current, this`tokens
      ensures Valid()
      ensures var sc := Lookahead(source, start, Token(EQUAL, "=="), [Token(ASSIGN, "=")]);
        tokens == old(tokens) + sc.tokens && current == sc.next
    {
      var lookahead := current + 1;
      if CharAt(source, lookahead) == ' ' {
        AddToken(EQUAL, "==");
        var skipped := Advance();
      } else {
        AddToken(ASSIGN, "=");
      }
    }

    method TokenizeNumber()
      requires current == start + 1 <= |source| && IsDigit(source[start])
      modifies this`current, this`tokens
      ensures Valid()
      ensures current == RunEnd(source, start + 1, Digits)
      ensures tokens == old(tokens) + [Token(INTEGER, source[start..current])]
    {
      while IsDigit(Peek())
        invariant start < current <= |source|
        invariant RunEnd(source, current, Digits) == RunEnd(source, start + 1, Digits)
        invariant tokens == old(tokens)
        decreases |source| - current
      {
        var skipped := Advance();
      }
      assert current == RunEnd(source, start + 1, Digits);
      var lookahead := current;
      while lookahead < |source| && !IsSpace(source[lookahead])
        invariant current <= lookahead <= |source|
        decreases |source| - lookahead
      {
        lookahead := lookahead + 1;
      }
      if IsAlpha(CharAt(source, lookahead)) {
        // The rescan as an identifier is unreachable: the loop above stops
        // only at whitespace or at the end of input.
        assert false;
      }
      AddToken(INTEGER, source[start..current]);
    }

    method TokenizeIdentifier()
      requires start < current <= |source|
      modifies this`current, this`tokens
      ensures Valid()
      ensures var sc := ScanWord(source, start, old(current));
        tokens == old(tokens) + sc.tokens && current == sc.next
    {
      while IsAlnum(Peek())
        invariant old(current) <= current <= |source|
        invariant RunEnd(source, current, Alnums) == RunEnd(source, old(current), Alnums)
        invariant tokens == old(tokens)
        decreases |source| - current
      {
        var skipped := Advance();
      }
      assert current == RunEnd(source, old(current), Alnums);
      var text := source[start..current];
      AddToken(WordKind(text), text);
    }

    /** Scans a string literal whose opening quote is at `start`; false when
        input ends before the closing quote. */
    method TokenizeString() returns (ok: bool)
      requires current == start + 1 <= |source| && source[start] == '"'
      modifies this`current, this`tokens
      ensures Valid()
      ensures ok <==> StringClose(source, start + 1).Some?
      ensures ok ==> var j := StringClose(source, start + 1).value;
        tokens == old(tokens) + [Token(STRING, source[start + 1..j])] && current == j + 1
    {
      while Peek() != '"' && !IsAtEnd()
        invariant start < current <= |source|
        invariant StringClose(source, current) == StringClose(source, start + 1)
        invariant tokens == old(tokens)
        decreases |source| - current
      {
        if Peek() == '\\' {
          var escape := Advance();
        }
        if !IsAtEnd() {
          var skipped := Advance();
        }
      }
      if IsAtEnd() {
        return false;
      }
      assert StringClose(source, current) == Some(current);
      var closing := Advance();
      AddToken(STRING, source[start + 1..current - 1]);
      ok := true;
    }
  }
}
