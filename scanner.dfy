/** The lexer `Scanner::scan_tokens`: the source is a sequence of lines, each
    scanned character by character with a peekable cursor; every token carries
    its 1-based line and column. */
module Scanner {
  import opened Common
  import opened Tokens

  /** `line_chars`: a peekable cursor over one line. `pos` is the index of the
      character the next `Next` returns. */
  class Peeker {
    const chars: string
    var pos: nat

    ghost predicate Valid()
      reads this
    {
      pos <= |chars|
    }

    constructor (line: string)
      ensures Valid() && chars == line && pos == 0
    {
      chars := line;
      pos := 0;
    }

    /** `peek().unwrap_or(&(0, ' ')).1`: the next character, or a space at the end. */
    function PeekOr(): (c: char)
      reads this
      requires Valid()
      ensures pos < |chars| ==> c == chars[pos]
      ensures pos == |chars| ==> c == ' '
    {
      if pos < |chars| then chars[pos] else ' '
    }

    /** `is_at_end`: no character is left. */
    function IsAtEnd(): (r: bool)
      reads this
      requires Valid()
      ensures r <==> chars[pos..] == []
    {
      pos == |chars|
    }

    /** `next()`: the index and character under the cursor, which then moves on. */
    method Next() returns (r: Option<(nat, char)>)
      requires Valid()
      modifies this
      ensures Valid()
      ensures old(pos) < |chars| ==> r == Some((old(pos), chars[old(pos)])) && pos == old(pos) + 1
      ensures old(pos) == |chars| ==> r == None && pos == old(pos)
    {
      if pos < |chars| {
        r := Some((pos, chars[pos]));
        pos := pos + 1;
      } else {
        r := None;
      }
    }
  }

  /** The first index at or after `from` where `line` holds `c`. */
  function IndexOf(line: string, from: nat, c: char): (r: Option<nat>)
    requires from <= |line|
    decreases |line| - from
    ensures r.Some? ==> from <= r.value < |line| && line[r.value] == c &&
                        forall k :: from <= k < r.value ==> line[k] != c
    ensures r.None? ==> forall k :: from <= k < |line| ==> line[k] != c
  {
    if from == |line| then None
    else if line[from] == c then Some(from)
    else IndexOf(line, from + 1, c)
  }

  /** What one turn of the scanning loop does with the character at `pos`:
      emit a token and continue at `next`, skip to `next`, or stop the scan. */
  datatype Step = Emit(tokenType: TokenType, next: nat) | Skip(next: nat) | Halt(failure: Failure)

  predicate IsDigit(c: char) {
    '0' <= c <= '9'
  }

  predicate IsAlpha(c: char) {
    'a' <= c <= 'z' || 'A' <= c <= 'Z'
  }

  /** `check_next`: the two-character token when the next character is `check`
      (which is then consumed), else the one-character token. At the end of the
      line the next character reads as a space. */
  function CheckNextAt(line: string, pos: nat, check: char, first: TokenType, second: TokenType): (s: Step)
    requires pos <= |line|
  {
    var peeked := if pos < |line| then line[pos] else ' ';
    if peeked != check then Emit(first, pos)
    else Emit(second, if pos < |line| then pos + 1 else pos)
  }

  /** `string`, after the opening quote at `from - 1`: the characters up to the next
      quote on the line form the literal and the quote is consumed; without one the
      rest of the line is consumed and the token is an error. */
  function StringAt(line: string, from: nat): (s: Step)
    requires from <= |line|
  {
    match IndexOf(line, from, '"')
    case Some(q) => Emit(StringLiteral(line[from..q]), q + 1)
    case None => Emit(Error("Unterminated string literal"), |line|)
  }

  /** A `//` comment: everything up to and including the next end-of-line character. */
  function CommentEnd(line: string, from: nat): (next: nat)
    requires from <= |line|
  {
    match IndexOf(line, from, '\n')
    case Some(q) => q + 1
    case None => |line|
  }

  /** The `match ch` of `scan_tokens`, for the character at `pos`. */
  function StepAt(line: string, pos: nat): (s: Step)
    requires pos < |line|
    ensures s.Emit? || s.Skip? ==> pos < s.next <= |line|
  {
    var after := pos + 1;
    match line[pos]
    case '(' => Emit(LeftParen, after)
    case ')' => Emit(RightParen, after)
    case '{' => Emit(LeftBrace, after)
    case '}' => Emit(RightBrace, after)
    case ',' => Emit(Comma, after)
    case '.' => Emit(Dot, after)
    case '-' => Emit(Minus, after)
    case '+' => Emit(Plus, after)
    case ';' => Emit(Semicolon, after)
    case '*' => Emit(Star, after)
    case '!' => CheckNextAt(line, after, '=', Bang, BangEqual)
    case '=' => CheckNextAt(line, after, '=', Equal, EqualEqual)
    case '>' => CheckNextAt(line, after, '=', Greater, GreaterEqual)
    case '<' => CheckNextAt(line, after, '=', Less, LessEqual)
    case ' ' | '\n' | '\t' | '\r' => Skip(after)
    case '/' => if after < |line| && line[after] == '/' then Skip(CommentEnd(line, after)) else Emit(Slash, after)
    case '"' => StringAt(line, after)
    case c =>
      if IsDigit(c) then Halt(Panic("not yet implemented: Need to finish number literals!"))
      else if IsAlpha(c) then Halt(Panic("not yet implemented: Need to finish identifiers and keywords!"))
      else Emit(Error("Unexpected char read from source"), after)
  }

  function Prepend(ts: seq<Token>, x: Exec<seq<Token>>): (r: Exec<seq<Token>>) {
    match x
    case Returned(us) => Returned(ts + us)
    case Aborted(f) => Aborted(f)
  }

  /** The tokens of `line` from `pos` on, for line number `lineNo`. */
  function LexFrom(line: string, pos: nat, lineNo: nat): (r: Exec<seq<Token>>)
    requires pos <= |line|
    decreases |line| - pos
  {
    if pos == |line| then Returned([])
    else
      match StepAt(line, pos)
      case Emit(t, next) => Prepend([Token(t, lineNo, pos + 1)], LexFrom(line, next, lineNo))
      case Skip(next) => LexFrom(line, next, lineNo)
      case Halt(f) => Aborted(f)
  }

  /** The tokens of one line's scan `x` followed by those of the lines `rest`. */
  function Then(x: Exec<seq<Token>>, rest: seq<string>, lineNo: nat): (r: Exec<seq<Token>>)
    decreases |rest|, 2
  {
    match x
    case Aborted(f) => Aborted(f)
    case Returned(ts) => Prepend(ts, ScanLines(rest, lineNo + 1))
  }

  /** The tokens of `lines`, the first of which has number `lineNo`. */
  function ScanLines(lines: seq<string>, lineNo: nat): (r: Exec<seq<Token>>)
    decreases |lines|, 1
  {
    if lines == [] then Returned([])
    else Then(LexFrom(lines[0], 0, lineNo), lines[1..], lineNo)
  }

  lemma PrependPrepend(a: seq<Token>, b: seq<Token>, x: Exec<seq<Token>>)
    ensures Prepend(a, Prepend(b, x)) == Prepend(a + b, x)
  {
    if x.Returned? {
      assert a + (b + x.value) == (a + b) + x.value;
    }
  }

  lemma PrependEmpty(x: Exec<seq<Token>>)
    ensures Prepend([], x) == x
  {
    if x.Returned? {
      assert [] + x.value == x.value;
    }
  }

  lemma ThenPrepend(t: seq<Token>, x: Exec<seq<Token>>, rest: seq<string>, lineNo: nat)
    ensures Then(Prepend(t, x), rest, lineNo) == Prepend(t, Then(x, rest, lineNo))
  {
    if x.Returned? {
      PrependPrepend(t, x.value, ScanLines(rest, lineNo + 1));
    }
  }

  /** `scan_token`: the token of type `tokenType` at `line` and `column`. */
  function ScanToken(tokenType: TokenType, line: nat, column: nat): (t: Token)
    ensures t.tokenType == tokenType && t.line == line && t.column == column
  {
    Token(tokenType, line, column)
  }

  /** `check_next` on the shared cursor. */
  method CheckNext(p: Peeker, check: char, first: TokenType, second: TokenType) returns (t: TokenType)
    requires p.Valid()
    modifies p
    ensures p.Valid()
    ensures CheckNextAt(p.chars, old(p.pos), check, first, second) == Emit(t, p.pos)
  {
    t := first;
    if p.PeekOr() == check {
      var _ := p.Next();
      t := second;
    }
  }

  /** `string` on the shared cursor, just after the opening quote: a `take_while`
      that sets `found` when it meets (and consumes) the closing quote. */
  method ReadString(p: Peeker) returns (t: TokenType)
    requires p.Valid()
    modifies p
    ensures p.Valid()
    ensures StringAt(p.chars, old(p.pos)) == Emit(t, p.pos)
  {
    ghost var from := p.pos;
    var found := false;
    var result := "";
    while true
      invariant p.Valid() && from <= p.pos
      invariant result == p.chars[from..p.pos]
      invariant forall k :: from <= k < p.pos ==> p.chars[k] != '"'
      decreases |p.chars| - p.pos
    {
      var next := p.Next();
      if next.None? {
        break;
      }
      if next.value.1 == '"' {
        found := true;
        break;
      }
      result := result + [next.value.1];
    }
    if !found {
      return Error("Unterminated string literal");
    }
    assert IndexOf(p.chars, from, '"') == Some(p.pos - 1);
    return StringLiteral(result);
  }

  /** The skipping loop of a `//` comment, with the cursor on the second `/`. */
  method SkipComment(p: Peeker)
    requires p.Valid()
    modifies p
    ensures p.Valid()
    ensures p.pos == CommentEnd(p.chars, old(p.pos))
  {
    ghost var from := p.pos;
    while true
      invariant p.Valid() && from <= p.pos
      invariant forall k :: from <= k < p.pos ==> p.chars[k] != '\n'
      decreases |p.chars| - p.pos
    {
      var next := p.Next();
      if next.None? || next.value.1 == '\n' {
        break;
      }
    }
    if p.pos == |p.chars| && (p.pos == from || p.chars[p.pos - 1] != '\n') {
      assert IndexOf(p.chars, from, '\n') == None;
    } else {
      assert IndexOf(p.chars, from, '\n') == Some(p.pos - 1);
    }
  }

  /** One turn of the `while let` loop of `scan_tokens`, after `next()` has returned
      `(charNum, ch)`: the `match ch`, which may move the cursor further. */
  method ScanChar(p: Peeker, charNum: nat, ch: char) returns (s: Step)
    requires p.Valid() && charNum < |p.chars| && p.chars[charNum] == ch && p.pos == charNum + 1
    modifies p
    ensures p.Valid()
    ensures s == StepAt(p.chars, charNum)
    ensures s.Emit? || s.Skip? ==> p.pos == s.next
  {
    var t: TokenType;
    match ch {
      case '(' => t := LeftParen;
      case ')' => t := RightParen;
      case '{' => t := LeftBrace;
      case '}' => t := RightBrace;
      case ',' => t := Comma;
      case '.' => t := Dot;
      case '-' => t := Minus;
      case '+' => t := Plus;
      case ';' => t := Semicolon;
      case '*' => t := Star;
      case '!' => t := CheckNext(p, '=', Bang, BangEqual);
      case '=' => t := CheckNext(p, '=', Equal, EqualEqual);
      case '>' => t := CheckNext(p, '=', Greater, GreaterEqual);
      case '<' => t := CheckNext(p, '=', Less, LessEqual);
      case ' ' | '\n' | '\t' | '\r' => return Skip(p.pos);
      case '/' =>
        if p.PeekOr() == '/' {
          SkipComment(p);
          return Skip(p.pos);
        }
        t := Slash;
      case '"' => t := ReadString(p);
      case _ =>
        if IsDigit(ch) {
          return Halt(Panic("not yet implemented: Need to finish number literals!"));
        }
        if IsAlpha(ch) {
          return Halt(Panic("not yet implemented: Need to finish identifiers and keywords!"));
        }
        t := Error("Unexpected char read from source");
    }
    s := Emit(t, p.pos);
  }

  /** `scan_tokens`: the tokens of the whole source, in order; a `todo!` reached on
      a digit or a letter stops the scan. */
  method ScanTokens(source: seq<string>) returns (r: Exec<seq<Token>>)
    ensures r == ScanLines(source, 1)
  {
    var tokens: seq<Token> := [];
    var lineNum := 0;
    PrependEmpty(ScanLines(source, 1));
    assert source[0..] == source;
    while lineNum < |source|
      invariant 0 <= lineNum <= |source|
      invariant Prepend(tokens, ScanLines(source[lineNum..], lineNum + 1)) == ScanLines(source, 1)
    {
      var line := source[lineNum];
      assert source[lineNum..][0] == line && source[lineNum..][1..] == source[lineNum + 1..];
      var lineChars := new Peeker(line);
      while true
        invariant lineChars.Valid() && lineChars.chars == line && fresh(lineChars)
        invariant Prepend(tokens, Then(LexFrom(line, lineChars.pos, lineNum + 1), source[lineNum + 1..], lineNum + 1))
               == ScanLines(source, 1)
        decreases |line| - lineChars.pos
      {
        var next := lineChars.Next();
        if next.None? {
          break;
        }
        var (charNum, ch) := next.value;
        var step := ScanChar(lineChars, charNum, ch);
        match step {
          case Emit(t, _) =>
            var token := ScanToken(t, lineNum + 1, charNum + 1);
            ThenPrepend([token], LexFrom(line, lineChars.pos, lineNum + 1), source[lineNum + 1..], lineNum + 1);
            PrependPrepend(tokens, [token], Then(LexFrom(line, lineChars.pos, lineNum + 1), source[lineNum + 1..], lineNum + 1));
            tokens := tokens + [token];
          case Skip(_) =>
          case Halt(f) =>
            return Aborted(f);
        }
      }
      PrependEmpty(ScanLines(source[lineNum + 1..], lineNum + 2));
      lineNum := lineNum + 1;
    }
    assert source[lineNum..] == [];
    r := Returned(tokens);
    assert tokens + [] == tokens;
  }
}
