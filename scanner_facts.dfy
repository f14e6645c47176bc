/** What the scanner promises, stated against `Scanner.LexFrom` and
    `Scanner.ScanLines` (which `Scanner.ScanTokens` is proved to compute). */
module ScannerFacts {
  import opened Common
  import opened Tokens
  import opened Scanner

  /** The one-character tokens. */
  const Punctuation: map<char, TokenType> :=
    map['(' := LeftParen, ')' := RightParen, '{' := LeftBrace, '}' := RightBrace,
        ',' := Comma, '.' := Dot, '-' := Minus, '+' := Plus, ';' := Semicolon, '*' := Star]

  /** The operators that become two-character tokens when followed by `=`. */
  const Operators: map<char, (TokenType, TokenType)> :=
    map['!' := (Bang, BangEqual), '=' := (Equal, EqualEqual),
        '>' := (Greater, GreaterEqual), '<' := (Less, LessEqual)]

  const Whitespace: set<char> := {' ', '\n', '\t', '\r'}

  /** Token `a` comes before token `b` in the source. */
  predicate Before(a: Token, b: Token) {
    a.line < b.line || (a.line == b.line && a.column < b.column)
  }

  /** Each punctuation character yields exactly its token, and scanning goes on
      with the next character. */
  lemma PunctuationRule(line: string, pos: nat, lineNo: nat)
    requires pos < |line| && line[pos] in Punctuation
    ensures LexFrom(line, pos, lineNo)
         == Prepend([Token(Punctuation[line[pos]], lineNo, pos + 1)], LexFrom(line, pos + 1, lineNo))
  {
  }

  /** `! = > <` followed by `=` yield the two-character token and both characters
      are consumed; otherwise, end of line included, the one-character token. */
  lemma OperatorRule(line: string, pos: nat, lineNo: nat)
    requires pos < |line| && line[pos] in Operators
    ensures pos + 1 < |line| && line[pos + 1] == '=' ==>
              (LexFrom(line, pos, lineNo)
               == Prepend([Token(Operators[line[pos]].1, lineNo, pos + 1)], LexFrom(line, pos + 2, lineNo)))
    ensures !(pos + 1 < |line| && line[pos + 1] == '=') ==>
              (LexFrom(line, pos, lineNo)
               == Prepend([Token(Operators[line[pos]].0, lineNo, pos + 1)], LexFrom(line, pos + 1, lineNo)))
  {
  }

  /** Whitespace yields no token. */
  lemma WhitespaceRule(line: string, pos: nat, lineNo: nat)
    requires pos < |line| && line[pos] in Whitespace
    ensures LexFrom(line, pos, lineNo) == LexFrom(line, pos + 1, lineNo)
  {
  }

  /** A line of whitespace only yields no token. */
  lemma {:induction false} BlankLine(line: string, pos: nat, lineNo: nat)
    requires pos <= |line|
    requires forall k :: pos <= k < |line| ==> line[k] in Whitespace
    decreases |line| - pos
    ensures LexFrom(line, pos, lineNo) == Returned([])
  {
    if pos < |line| {
      WhitespaceRule(line, pos, lineNo);
      BlankLine(line, pos + 1, lineNo);
    }
  }

  /** `//` discards the rest of a line. */
  lemma CommentRule(line: string, pos: nat, lineNo: nat)
    requires pos + 1 < |line| && line[pos] == '/' && line[pos + 1] == '/'
    requires forall k :: pos <= k < |line| ==> line[k] != '\n'
    ensures LexFrom(line, pos, lineNo) == Returned([])
  {
    assert IndexOf(line, pos + 1, '\n') == None;
  }

  /** A `/` not followed by `/` is a `Slash`. */
  lemma SlashRule(line: string, pos: nat, lineNo: nat)
    requires pos < |line| && line[pos] == '/' && !(pos + 1 < |line| && line[pos + 1] == '/')
    ensures LexFrom(line, pos, lineNo)
         == Prepend([Token(Slash, lineNo, pos + 1)], LexFrom(line, pos + 1, lineNo))
  {
  }

  /** A quote opens a string literal: the characters up to the next quote `q`,
      without the quotes, and scanning resumes after `q`. */
  lemma StringRule(line: string, pos: nat, q: nat, lineNo: nat)
    requires pos < q < |line| && line[pos] == '"' && line[q] == '"'
    requires forall k :: pos < k < q ==> line[k] != '"'
    ensures LexFrom(line, pos, lineNo)
         == Prepend([Token(StringLiteral(line[pos + 1..q]), lineNo, pos + 1)], LexFrom(line, q + 1, lineNo))
  {
    assert IndexOf(line, pos + 1, '"') == Some(q);
  }

  /** Without a closing quote on the line the literal is an error, the last token
      of the line. */
  lemma UnterminatedRule(line: string, pos: nat, lineNo: nat)
    requires pos < |line| && line[pos] == '"'
    requires forall k :: pos < k < |line| ==> line[k] != '"'
    ensures LexFrom(line, pos, lineNo) == Returned([Token(Error("Unterminated string literal"), lineNo, pos + 1)])
  {
    assert IndexOf(line, pos + 1, '"') == None;
    assert [Token(Error("Unterminated string literal"), lineNo, pos + 1)] + [] ==
           [Token(Error("Unterminated string literal"), lineNo, pos + 1)];
  }

  /** Any other character that is neither a digit nor a letter yields an error
      token, and scanning goes on. */
  lemma UnexpectedRule(line: string, pos: nat, lineNo: nat)
    requires pos < |line|
    requires line[pos] !in Punctuation && line[pos] !in Operators && line[pos] !in Whitespace
    requires line[pos] != '/' && line[pos] != '"' && !IsDigit(line[pos]) && !IsAlpha(line[pos])
    ensures LexFrom(line, pos, lineNo)
         == Prepend([Token(Error("Unexpected char read from source"), lineNo, pos + 1)], LexFrom(line, pos + 1, lineNo))
  {
  }

  /** A digit or a letter reaches an unfinished `todo!` and the scan stops. */
  lemma TodoRule(line: string, pos: nat, lineNo: nat)
    requires pos < |line| && (IsDigit(line[pos]) || IsAlpha(line[pos]))
    ensures LexFrom(line, pos, lineNo).Aborted?
    ensures LexFrom(line, pos, lineNo).failure.Panic?
  {
  }

  /** The tokens of a line all carry its number, lie at columns after `pos`
      within the line, and come with strictly increasing columns. */
  lemma {:induction false} LexFromPositions(line: string, pos: nat, lineNo: nat)
    requires pos <= |line|
    requires LexFrom(line, pos, lineNo).Returned?
    decreases |line| - pos
    ensures var ts := LexFrom(line, pos, lineNo).value;
            (forall i :: 0 <= i < |ts| ==> ts[i].line == lineNo && pos < ts[i].column <= |line|) &&
            (forall i, j :: 0 <= i < j < |ts| ==> ts[i].column < ts[j].column)
  {
    if pos < |line| {
      var step := StepAt(line, pos);
      if step.Emit? {
        LexFromPositions(line, step.next, lineNo);
        var rest := LexFrom(line, step.next, lineNo).value;
        var ts := LexFrom(line, pos, lineNo).value;
        assert ts == [Token(step.tokenType, lineNo, pos + 1)] + rest;
        forall i | 0 < i < |ts|
          ensures ts[i] == rest[i - 1]
        {
        }
      } else if step.Skip? {
        LexFromPositions(line, step.next, lineNo);
      }
    }
  }

  /** The tokens of the whole source come in source order: line numbers lie in
      range and never decrease, and within a line columns increase. */
  lemma {:induction false} ScanLinesInOrder(lines: seq<string>, lineNo: nat)
    requires ScanLines(lines, lineNo).Returned?
    decreases |lines|
    ensures var ts := ScanLines(lines, lineNo).value;
            (forall i :: 0 <= i < |ts| ==> lineNo <= ts[i].line < lineNo + |lines| && 1 <= ts[i].column) &&
            (forall i, j :: 0 <= i < j < |ts| ==> Before(ts[i], ts[j]))
  {
    if lines != [] {
      var first := LexFrom(lines[0], 0, lineNo);
      LexFromPositions(lines[0], 0, lineNo);
      ScanLinesInOrder(lines[1..], lineNo + 1);
      var head := first.value;
      var tail := ScanLines(lines[1..], lineNo + 1).value;
      var ts := ScanLines(lines, lineNo).value;
      assert ts == head + tail;
      forall i | 0 <= i < |ts|
        ensures lineNo <= ts[i].line < lineNo + |lines| && 1 <= ts[i].column
      {
        if i >= |head| {
          assert ts[i] == tail[i - |head|];
        }
      }
      forall i, j | 0 <= i < j < |ts|
        ensures Before(ts[i], ts[j])
      {
        if j < |head| {
        } else if i >= |head| {
          assert ts[i] == tail[i - |head|] && ts[j] == tail[j - |head|];
        } else {
          assert ts[j] == tail[j - |head|];
        }
      }
    }
  }

  /** Some line of `lines`, the first numbered `lineNo`, stops its own scan. */
  predicate SomeLineAborts(lines: seq<string>, lineNo: nat) {
    exists i :: 0 <= i < |lines| && LexFrom(lines[i], 0, lineNo + i).Aborted?
  }

  lemma SomeLineAbortsSplit(lines: seq<string>, lineNo: nat)
    requires lines != []
    ensures SomeLineAborts(lines, lineNo)
        <==> LexFrom(lines[0], 0, lineNo).Aborted? || SomeLineAborts(lines[1..], lineNo + 1)
  {
    var rest := lines[1..];
    if SomeLineAborts(lines, lineNo) && !LexFrom(lines[0], 0, lineNo).Aborted? {
      var i :| 0 <= i < |lines| && LexFrom(lines[i], 0, lineNo + i).Aborted?;
      assert rest[i - 1] == lines[i] && (lineNo + 1) + (i - 1) == lineNo + i;
    }
    if SomeLineAborts(rest, lineNo + 1) {
      var i :| 0 <= i < |rest| && LexFrom(rest[i], 0, lineNo + 1 + i).Aborted?;
      assert lines[i + 1] == rest[i];
    }
    if LexFrom(lines[0], 0, lineNo).Aborted? {
      assert LexFrom(lines[0], 0, lineNo + 0).Aborted?;
    }
  }

  /** The scan of the source stops exactly when the scan of some line does. */
  lemma {:induction false} ScanAbortsIff(lines: seq<string>, lineNo: nat)
    decreases |lines|
    ensures ScanLines(lines, lineNo).Aborted? <==> SomeLineAborts(lines, lineNo)
  {
    if lines != [] {
      ScanAbortsIff(lines[1..], lineNo + 1);
      SomeLineAbortsSplit(lines, lineNo);
    }
  }

  /** The first line of the example: the comment and the blanks yield nothing. */
  lemma ExampleLine()
    ensures LexFrom("(!= \"hi\" // c", 0, 1)
         == Returned([Token(LeftParen, 1, 1), Token(BangEqual, 1, 2), Token(StringLiteral("hi"), 1, 5)])
  {
    var l1 := "(!= \"hi\" // c";
    CommentRule(l1, 9, 1);
    WhitespaceRule(l1, 8, 1);
    StringRule(l1, 4, 7, 1);
    assert l1[5..7] == "hi";
    var strTok := Token(StringLiteral("hi"), 1, 5);
    assert [strTok] + [] == [strTok];
    assert LexFrom(l1, 4, 1) == Returned([strTok]);
    assert l1[1] == '!' && l1[2] == '=' && l1[3] == ' ';
    WhitespaceRule(l1, 3, 1);
    assert LexFrom(l1, 3, 1) == Returned([strTok]);
    OperatorRule(l1, 1, 1);
    assert [Token(BangEqual, 1, 2)] + [strTok] == [Token(BangEqual, 1, 2), strTok];
    assert LexFrom(l1, 1, 1) == Returned([Token(BangEqual, 1, 2), strTok]);
    assert l1[0] == '(';
    PunctuationRule(l1, 0, 1);
    assert [Token(LeftParen, 1, 1)] + [Token(BangEqual, 1, 2), strTok]
        == [Token(LeftParen, 1, 1), Token(BangEqual, 1, 2), strTok];
  }

  /** A two-line source: an open parenthesis, `!=`, a string literal and a comment
      on line 1, a star on line 2. */
  lemma Example()
    ensures ScanLines(["(!= \"hi\" // c", "*"], 1)
         == Returned([Token(LeftParen, 1, 1), Token(BangEqual, 1, 2),
                      Token(StringLiteral("hi"), 1, 5), Token(Star, 2, 1)])
  {
    var source := ["(!= \"hi\" // c", "*"];
    var line1 := [Token(LeftParen, 1, 1), Token(BangEqual, 1, 2), Token(StringLiteral("hi"), 1, 5)];
    ExampleLine();
    PunctuationRule("*", 0, 2);
    var star := [Token(Star, 2, 1)];
    assert star + [] == star;
    assert LexFrom("*", 0, 2) == Returned(star);
    assert source[1..] == ["*"];
    assert ["*"][1..] == [];
    assert ScanLines(["*"], 2) == Returned(star);
    assert source[0] == "(!= \"hi\" // c";
    assert ScanLines(source, 1) == Prepend(line1, ScanLines(["*"], 2));
    assert line1 + star == [Token(LeftParen, 1, 1), Token(BangEqual, 1, 2),
                            Token(StringLiteral("hi"), 1, 5), Token(Star, 2, 1)];
  }
}
