/** The scanner: a cursor and a line counter moving over the source text. */
module Lexing {
  import opened Syntax

  // Character classes, ASCII only.
  predicate IsAlpha(c: char) { 'a' <= c <= 'z' || 'A' <= c <= 'Z' }
  predicate IsDigit(c: char) { '0' <= c <= '9' }
  predicate IsIdentChar(c: char) { IsAlpha(c) || IsDigit(c) || c == '_' }
  predicate IsSpace(c: char) { c == ' ' || c == '\t' || c == '\r' || c == '\n' }

  /** The fixed keyword table. */
  const Keywords: map<string, TokenKind> := map["inc" := Inc, "print" := Print]

  function KeywordKind(lexeme: string): (k: TokenKind)
    ensures IsWordKind(k)
  {
    if lexeme in Keywords then Keywords[lexeme] else Identifier
  }

  function PunctKind(c: char): (k: TokenKind)
    ensures !IsWordKind(k) && k != Number && k != EndOfFile
  {
    match c
    case '=' => Assign
    case ';' => Semicolon
    case '(' => LParen
    case ')' => RParen
    case _ => Unknown
  }

  /** The end of the maximal run of characters satisfying `p` that starts at `i`. */
  function RunEnd(s: string, i: nat, p: char -> bool): (j: nat)
    requires i <= |s|
    ensures i <= j <= |s|
    decreases |s| - i
  {
    if i < |s| && p(s[i]) then RunEnd(s, i + 1, p) else i
  }

  /** The run is maximal: every character in it satisfies `p` and the one after it does not. */
  lemma {:induction false} RunEndMaximal(s: string, i: nat, p: char -> bool)
    requires i <= |s|
    ensures forall k :: i <= k < RunEnd(s, i, p) ==> p(s[k])
    ensures RunEnd(s, i, p) == |s| || !p(s[RunEnd(s, i, p)])
    decreases |s| - i
  {
    if i < |s| && p(s[i]) {
      RunEndMaximal(s, i + 1, p);
    }
  }

  /** Conversely, a maximal run from `i` ends where `RunEnd` says. */
  lemma {:induction false} RunEndIs(s: string, i: nat, j: nat, p: char -> bool)
    requires i <= j <= |s|
    requires forall k :: i <= k < j ==> p(s[k])
    requires j == |s| || !p(s[j])
    ensures RunEnd(s, i, p) == j
    decreases j - i
  {
    if i < j {
      RunEndIs(s, i + 1, j, p);
    }
  }

  /** The number of line feeds in `s`. */
  function Newlines(s: string): nat {
    multiset(s)['\n']
  }

  /** Where the lexer stands: the index of the next unread character and the current line. */
  datatype Cursor = Cursor(pos: nat, line: int)

  /** What one call of `nextToken` returns and where it leaves the lexer. */
  function Scan(src: string, c: Cursor): (r: (Token, Cursor))
    requires c.pos <= |src|
    ensures c.pos <= r.1.pos <= |src|
    ensures c.line <= r.1.line == r.0.line
    ensures r.0.kind == EndOfFile ==> r.1.pos == |src| && r.0 == Token(EndOfFile, "", r.1.line)
    ensures r.0.kind != EndOfFile ==> c.pos < r.1.pos
  {
    var start := RunEnd(src, c.pos, IsSpace);
    var line := c.line + Newlines(src[c.pos..start]);
    if start == |src| then
      (Token(EndOfFile, "", line), Cursor(start, line))
    else if IsAlpha(src[start]) then
      var stop := RunEnd(src, start, IsIdentChar);
      (Token(KeywordKind(src[start..stop]), src[start..stop], line), Cursor(stop, line))
    else if IsDigit(src[start]) then
      var stop := RunEnd(src, start, IsDigit);
      (Token(Number, src[start..stop], line), Cursor(stop, line))
    else
      (Token(PunctKind(src[start]), [src[start]], line), Cursor(start + 1, line))
  }

  /** The whole token stream from `c`, up to and including the first end-of-file token. */
  function Tokens(src: string, c: Cursor): (ts: seq<Token>)
    requires c.pos <= |src|
    ensures |ts| > 0 && ts[|ts| - 1].kind == EndOfFile
    ensures forall i :: 0 <= i < |ts| - 1 ==> ts[i].kind != EndOfFile
    ensures ts[0] == Scan(src, c).0
    decreases |src| - c.pos
  {
    var (t, next) := Scan(src, c);
    if t.kind == EndOfFile then [t] else [t] + Tokens(src, next)
  }

  /** Once the cursor is at the end, every scan yields end-of-file and moves nothing. */
  lemma ScanAtEnd(src: string, c: Cursor)
    requires c.pos == |src|
    ensures Scan(src, c) == (Token(EndOfFile, "", c.line), c)
  {
    assert src[c.pos..c.pos] == [];
  }

  /** End-of-file is a fixed point: scanning again from where it left the lexer repeats it. */
  lemma EndOfFileRepeats(src: string, c: Cursor)
    requires c.pos <= |src| && Scan(src, c).0.kind == EndOfFile
    ensures Scan(src, Scan(src, c).1) == Scan(src, c)
  {
    ScanAtEnd(src, Scan(src, c).1);
  }

  /** A string made of one letter followed by letters, digits and underscores. */
  predicate IsIdentifierLexeme(w: string) {
    |w| > 0 && IsAlpha(w[0]) && forall i :: 0 <= i < |w| ==> IsIdentChar(w[i])
  }

  /** A non-empty string of digits. */
  predicate IsNumberLexeme(w: string) {
    |w| > 0 && forall i :: 0 <= i < |w| ==> IsDigit(w[i])
  }

  predicate IsWordKind(k: TokenKind) { k == Inc || k == Print || k == Identifier }

  /** What precedes a token: the whitespace run is skipped and its line feeds counted. */
  lemma ScanSkipsWhitespace(src: string, c: Cursor)
    requires c.pos <= |src|
    ensures var start := RunEnd(src, c.pos, IsSpace);
            && Scan(src, c).0.line == c.line + Newlines(src[c.pos..start])
            && (Scan(src, c).0.kind == EndOfFile <==> start == |src|)
            && (start < |src| ==> Scan(src, c).0.lexeme == src[start..Scan(src, c).1.pos])
  {
    var start := RunEnd(src, c.pos, IsSpace);
    if start < |src| && !IsAlpha(src[start]) && !IsDigit(src[start]) {
      assert [src[start]] == src[start..start + 1];
    }
  }

  /** Exactly the tokens that start with a letter are words (keywords or identifiers). */
  lemma ScanWordStart(src: string, c: Cursor)
    requires c.pos <= |src|
    ensures var start := RunEnd(src, c.pos, IsSpace);
            IsWordKind(Scan(src, c).0.kind) <==> start < |src| && IsAlpha(src[start])
  {
    var start := RunEnd(src, c.pos, IsSpace);
    if start < |src| && !IsAlpha(src[start]) && !IsDigit(src[start]) {
      assert Scan(src, c).0.kind == PunctKind(src[start]);
    }
  }

  /** A word is a maximal identifier run, and it is a keyword exactly when it is
      "inc" or "print". */
  lemma ScanWordMaximal(src: string, c: Cursor)
    requires c.pos <= |src|
    ensures var (t, next) := Scan(src, c);
            IsWordKind(t.kind) ==>
              && IsIdentifierLexeme(t.lexeme)
              && (next.pos == |src| || !IsIdentChar(src[next.pos]))
              && (t.kind == Inc <==> t.lexeme == "inc")
              && (t.kind == Print <==> t.lexeme == "print")
  {
    var start := RunEnd(src, c.pos, IsSpace);
    if start < |src| && IsAlpha(src[start]) {
      RunEndMaximal(src, start, IsIdentChar);
      var w := src[start..RunEnd(src, start, IsIdentChar)];
      assert Scan(src, c).0.lexeme == w;
      assert forall i :: 0 <= i < |w| ==> w[i] == src[start + i];
    }
  }

  /** Exactly the tokens that start with a digit are numbers. */
  lemma ScanNumberStart(src: string, c: Cursor)
    requires c.pos <= |src|
    ensures var start := RunEnd(src, c.pos, IsSpace);
            Scan(src, c).0.kind == Number <==> start < |src| && IsDigit(src[start])
  {
    var start := RunEnd(src, c.pos, IsSpace);
    if start < |src| && !IsAlpha(src[start]) && !IsDigit(src[start]) {
      assert Scan(src, c).0.kind == PunctKind(src[start]);
    }
  }

  /** A number is a maximal non-empty run of digits. */
  lemma ScanNumberMaximal(src: string, c: Cursor)
    requires c.pos <= |src|
    ensures var (t, next) := Scan(src, c);
            t.kind == Number ==>
              IsNumberLexeme(t.lexeme) && (next.pos == |src| || !IsDigit(src[next.pos]))
  {
    var start := RunEnd(src, c.pos, IsSpace);
    if start < |src| && IsDigit(src[start]) {
      RunEndMaximal(src, start, IsDigit);
      var w := src[start..RunEnd(src, start, IsDigit)];
      assert Scan(src, c).0.lexeme == w;
      assert forall i :: 0 <= i < |w| ==> w[i] == src[start + i];
    }
  }

  /** Any other character is a token of its own: a punctuator or Unknown. */
  lemma ScanSingle(src: string, c: Cursor)
    requires c.pos <= |src|
    ensures var (t, next) := Scan(src, c);
            var start := RunEnd(src, c.pos, IsSpace);
            start < |src| && !IsAlpha(src[start]) && !IsDigit(src[start]) ==>
              next.pos == start + 1 && t.kind == PunctKind(src[start]) && t.lexeme == [src[start]]
  {
  }

  /** An identifier must start with a letter: a leading underscore is an Unknown token of
      its own, and the rest of the word is scanned after it. */
  lemma LeadingUnderscore(src: string, c: Cursor)
    requires c.pos < |src| && src[c.pos] == '_'
    ensures Scan(src, c) == (Token(Unknown, "_", c.line), Cursor(c.pos + 1, c.line))
  {
    RunEndIs(src, c.pos, c.pos, IsSpace);
    assert src[c.pos..c.pos] == [];
  }

  /** The scanner object of the source: `pos` is `current_pos`, `line` is `line_num`. */
  class Lexer {
    const source: string
    var pos: nat
    var line: int

    ghost predicate Valid()
      reads this
    {
      pos <= |source| && 1 <= line
    }

    function State(): Cursor
      reads this
    {
      Cursor(pos, line)
    }

    constructor (src: string)
      ensures Valid() && source == src && State() == Cursor(0, 1)
    {
      source := src;
      pos := 0;
      line := 1;
    }

    /** The next character, or NUL at the end; NUL is neither whitespace nor part of a
        word or a number, so every scanning loop stops at the end of the source. */
    function Peek(): (c: char)
      reads this
      ensures pos < |source| ==> c == source[pos]
      ensures pos >= |source| ==> c == '\0' && !IsSpace(c) && !IsIdentChar(c)
    {
      if pos < |source| then source[pos] else '\0'
    }

    method Advance() returns (c: char)
      requires Valid()
      modifies this`pos
      ensures Valid()
      ensures c == old(Peek())
      ensures pos == if old(pos) < |source| then old(pos) + 1 else old(pos)
    {
      c := Peek();
      if pos < |source| {
        pos := pos + 1;
      }
    }

    method SkipWhitespace()
      requires Valid()
      modifies this
      ensures Valid()
      ensures pos == RunEnd(source, old(pos), IsSpace)
      ensures line == old(line) + Newlines(source[old(pos)..pos])
    {
      while pos < |source|
        invariant Valid() && old(pos) <= pos
        invariant forall k :: old(pos) <= k < pos ==> IsSpace(source[k])
        invariant line == old(line) + Newlines(source[old(pos)..pos])
        decreases |source| - pos
      {
        var c := Peek();
        assert source[old(pos)..pos + 1] == source[old(pos)..pos] + [c];
        if c == ' ' || c == '\t' || c == '\r' {
          c := Advance();
        } else if c == '\n' {
          line := line + 1;
          c := Advance();
        } else {
          break;
        }
      }
      RunEndIs(source, old(pos), pos, IsSpace);
    }

    method ScanIdentifier() returns (t: Token)
      requires Valid()
      modifies this`pos
      ensures Valid()
      ensures pos == RunEnd(source, old(pos), IsIdentChar)
      ensures t == Token(KeywordKind(source[old(pos)..pos]), source[old(pos)..pos], line)
    {
      var lexeme := "";
      while IsIdentChar(Peek())
        invariant Valid() && old(pos) <= pos
        invariant lexeme == source[old(pos)..pos]
        invariant forall k :: old(pos) <= k < pos ==> IsIdentChar(source[k])
        decreases |source| - pos
      {
        var c := Advance();
        lexeme := lexeme + [c];
      }
      RunEndIs(source, old(pos), pos, IsIdentChar);
      if lexeme in Keywords {
        t := Token(Keywords[lexeme], lexeme, line);
      } else {
        t := Token(Identifier, lexeme, line);
      }
    }

    method ScanNumber() returns (t: Token)
      requires Valid()
      modifies this`pos
      ensures Valid()
      ensures pos == RunEnd(source, old(pos), IsDigit)
      ensures t == Token(Number, source[old(pos)..pos], line)
    {
      var lexeme := "";
      while IsDigit(Peek())
        invariant Valid() && old(pos) <= pos
        invariant lexeme == source[old(pos)..pos]
        invariant forall k :: old(pos) <= k < pos ==> IsDigit(source[k])
        decreases |source| - pos
      {
        var c := Advance();
        lexeme := lexeme + [c];
      }
      RunEndIs(source, old(pos), pos, IsDigit);
      t := Token(Number, lexeme, line);
    }

    /** One token, exactly as `Scan` describes it. */
    method NextToken() returns (t: Token)
      requires Valid()
      modifies this
      ensures Valid()
      ensures (t, State()) == Scan(source, old(State()))
    {
      SkipWhitespace();
      if pos >= |source| {
        return Token(EndOfFile, "", line);
      }
      var c := Advance();
      if IsAlpha(c) {
        pos := pos - 1;
        t := ScanIdentifier();
        return;
      }
      if IsDigit(c) {
        pos := pos - 1;
        t := ScanNumber();
        return;
      }
      t := Token(PunctKind(c), [c], line);
    }
  }
}
