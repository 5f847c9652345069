/**
  The lexer: a cursor that consumes a source text and emits tokens.
  A subtraction of columns that would go below zero stops the lexer.
*/
module Lexer {
  import opened Wrappers
  import opened Text
  import opened LexicalGrammar

  datatype Step = Skip(end: nat) | Emit(end: nat, token: Token) | Bad | Underflow

  datatype Lexed = Tokens(tokens: seq<Token>) | Failed | Panicked

  function WordChar(k: Classes): char -> bool {
    c => k.alnum(c) || c == '_'
  }

  predicate NotNewline(c: char) {
    c != '\n'
  }

  predicate IsHash(c: char) {
    c == '#'
  }

  // ---- what each step is meant to do

  function NumberText(s: string, i: nat): (r: Option<Scanned<string>>)
    requires Has(s, i, IsDigit)
    ensures r.Some? ==> i < r.value.end <= |s|
  {
    if IsBased(s, i) then
      match BasedValue(s, i) case Some(v) => Some(Scanned(Decimal(v), BasedEnd(s, i))) case None => None
    else
      assert NumberEnd(s, i) > i;
      Some(Scanned(s[i..NumberEnd(s, i)], NumberEnd(s, i)))
  }

  function NumberKind(num: string): Kind {
    if IsFloat(num) then FloatLit else IntLit
  }

  /** A number's column is found by stepping back over its value. */
  function NumberStep(s: string, i: nat): Step
    requires Has(s, i, IsDigit)
  {
    match NumberText(s, i)
    case None => Bad
    case Some(r) =>
      var after := PlaceAfter(s[..r.end]);
      if after.column < |r.value| then Underflow
      else Emit(r.end, Token(NumberKind(r.value), Some(r.value), after.(column := after.column - |r.value|)))
  }

  function MinusStep(s: string, i: nat): Step
    requires i < |s| && s[i] == '-'
  {
    var start := PlaceAfter(s[..i]);
    if Next(s, i, '=') then Emit(i + 2, Token(Sign(MinusAssign), None, start))
    else if Has(s, i + 1, IsDigit) then
      match NumberText(s, i + 1)
      case None => Bad
      case Some(r) => Emit(r.end, Token(NumberKind(r.value), Some("-" + r.value), start))
    else Emit(i + 1, Token(Sign(Minus), None, start))
  }

  function OperatorStep(s: string, i: nat): Step
    requires i < |s|
  {
    if s[i] == '-' then MinusStep(s, i)
    else match OperatorAt(s, i)
      case None => Bad
      case Some(op) =>
        Emit(i + |Spelling(op)|, Token(Sign(op), if op == At then Some("@") else None, PlaceAfter(s[..i])))
  }

  /** The raw string whose `r` stands at `i`. */
  function RawAt(s: string, i: nat): (r: Option<Scanned<string>>)
    requires i < |s|
    ensures r.Some? ==> i < r.value.end <= |s|
  {
    var h := RunEnd(s, i + 1, IsHash);
    if h < |s| && s[h] == '"' then RawBody(s, h + 1, h - (i + 1)) else None
  }

  function TextStep(s: string, kind: Kind, r: Option<Scanned<string>>): Step
    requires r.Some? ==> r.value.end <= |s|
  {
    match r
    case None => Bad
    case Some(t) => Emit(t.end, Token(kind, Some(t.value), PlaceAfter(s[..t.end])))
  }

  function CharStep(s: string, i: nat): Step {
    match CharAt(s, i)
    case None => Bad
    case Some(r) => Emit(r.end, Token(CharLit, Some(Decimal(r.value as int)), PlaceAfter(s[..r.end])))
  }

  function CommentStep(s: string, i: nat): Step
    requires i + 1 < |s| && s[i] == '/' && (s[i + 1] == '/' || s[i + 1] == '!')
  {
    if s[i + 1] == '/' then Skip(RunEnd(s, i + 2, NotNewline))
    else match BlockEnd(s, i + 2) case Some(end) => Skip(end) case None => Bad
  }

  function WordStep(k: Classes, s: string, i: nat): Step
    requires i < |s|
  {
    var end := RunEnd(s, i, WordChar(k));
    Emit(end, Token(Word, Some(s[i..end]), PlaceAfter(s[..i])))
  }

  /** One round of the lexer at a character that is not blank. */
  function StepAt(k: Classes, s: string, i: nat): Step
    requires i < |s|
  {
    if s[i] == '/' && (Next(s, i, '/') || Next(s, i, '!')) then CommentStep(s, i)
    else if s[i] == '\n' then Emit(i + 1, Token(Newline, None, PlaceAfter(s[..i + 1])))
    else if s[i] == 'r' && (Next(s, i, '"') || Next(s, i, '#')) then TextStep(s, StrLit, RawAt(s, i))
    else if k.alpha(s[i]) || s[i] == '_' then WordStep(k, s, i)
    else if IsDigit(s[i]) then NumberStep(s, i)
    else if s[i] == '"' then TextStep(s, StrLit, StringBody(s, i + 1, '"'))
    else if s[i] == '\'' then CharStep(s, i)
    else OperatorStep(s, i)
  }

  /** Every round consumes at least one character and stays within the text. */
  lemma StepAdvances(k: Classes, s: string, i: nat)
    requires Sane(k) && i < |s|
    ensures match StepAt(k, s, i)
      case Skip(end) => i < end <= |s|
      case Emit(end, _) => i < end <= |s|
      case _ => true
  {
    hide PlaceAfter, NumberText, Spelling, RunEnd;
    OperatorInside(s, i);
    if WordChar(k)(s[i]) { RunAdvances(s, i, WordChar(k)); }
  }

  lemma RunAdvances(s: string, i: nat, p: char -> bool)
    requires i < |s| && p(s[i])
    ensures RunEnd(s, i, p) > i
  {
  }

  lemma OperatorInside(s: string, i: nat)
    requires i < |s|
    ensures OperatorAt(s, i).Some? ==> i < i + |Spelling(OperatorAt(s, i).value)| <= |s|
  {
    hide OperatorAt, Spelling;
    OperatorIsLongest(s, i);
  }

  function Prepend(front: seq<Token>, rest: Lexed): Lexed {
    match rest case Tokens(ts) => Tokens(front + ts) case _ => rest
  }

  /** All of the text from `i`. */
  function Lex(k: Classes, s: string, i: nat): Lexed
    requires Sane(k) && i <= |s|
    decreases |s| - i
  {
    var j := RunEnd(s, i, IsBlank);
    if j == |s| then Tokens([Token(Eof, None, PlaceAfter(s))])
    else
      StepAdvances(k, s, j);
      match StepAt(k, s, j)
      case Skip(end) => Lex(k, s, end)
      case Emit(end, token) => Prepend([token], Lex(k, s, end))
      case Bad => Failed
      case Underflow => Panicked
  }

  // ---- the lexer

  /** How a round that should do `step` leaves the cursor and the tokens. */
  ghost predicate Did(step: Step, pos: nat, before: seq<Token>, after: seq<Token>, stop: Option<Lexed>) {
    match step
    case Skip(end) => stop.None? && pos == end && after == before
    case Emit(end, token) => stop.None? && pos == end && after == before + [token]
    case Bad => stop == Some(Failed)
    case Underflow => stop == Some(Panicked)
  }

  function Joined(front: string, rest: Option<Scanned<string>>): Option<Scanned<string>> {
    match rest case Some(r) => Some(Scanned(front + r.value, r.end)) case None => None
  }

  lemma JoinedNothing(rest: Option<Scanned<string>>)
    ensures Joined("", rest) == rest
  {
    if rest.Some? { assert "" + rest.value.value == rest.value.value; }
  }

  lemma JoinedCons(front: string, c: char, rest: Option<Scanned<string>>)
    ensures Joined(front, Cons(c, rest)) == Joined(front + [c], rest)
  {
    if rest.Some? { assert front + ([c] + rest.value.value) == front + [c] + rest.value.value; }
  }

  lemma JoinedEnd(front: string, end: nat)
    ensures Joined(front, Some(Scanned("", end))) == Some(Scanned(front, end))
  {
    assert front + "" == front;
  }

  class Lexer {
    const k: Classes
    const source: string
    var pos: nat
    var line: nat
    var column: nat
    var tokens: seq<Token>

    /** Line and column are a function of what has been consumed. */
    ghost predicate Valid()
      reads this
    {
      pos <= |source| && Place(line, column) == PlaceAfter(source[..pos])
    }

    constructor (k: Classes, source: string)
      ensures Valid() && this.k == k && this.source == source && pos == 0 && tokens == []
    {
      this.k, this.source := k, source;
      pos, line, column, tokens := 0, 1, 1, [];
    }

    function Peek(offset: nat): Option<char>
      reads this
    {
      if pos + offset < |source| then Some(source[pos + offset]) else None
    }

    method Advance() returns (c: Option<char>)
      requires Valid()
      modifies this`pos, this`line, this`column
      ensures Valid()
      ensures if old(pos) < |source| then c == Some(source[old(pos)]) && pos == old(pos) + 1 else c.None? && pos == old(pos)
    {
      c := Peek(0);
      if c.None? { return; }
      assert source[..pos + 1][..pos] == source[..pos];
      pos := pos + 1;
      if c.value == '\n' {
        line, column := line + 1, 1;
      } else {
        column := column + 1;
      }
    }

    method ReadWhile(p: char -> bool) returns (text: string)
      requires Valid()
      modifies this`pos, this`line, this`column
      ensures Valid() && pos == RunEnd(source, old(pos), p) && text == source[old(pos)..pos]
    {
      text := "";
      while Peek(0).Some? && p(Peek(0).value)
        invariant Valid() && old(pos) <= pos && text == source[old(pos)..pos]
        invariant RunEnd(source, pos, p) == RunEnd(source, old(pos), p)
        decreases |source| - pos
      {
        var c := Advance();
        text := text + [c.value];
      }
    }

    method SkipBlockComment() returns (ok: bool)
      requires Valid()
      modifies this`pos, this`line, this`column
      ensures Valid() && ok == BlockEnd(source, old(pos)).Some? && (ok ==> pos == BlockEnd(source, old(pos)).value)
    {
      while true
        invariant Valid() && BlockEnd(source, pos) == BlockEnd(source, old(pos))
        decreases |source| - pos
      {
        if pos >= |source| { return false; }
        if Peek(0) == Some('!') && Peek(1) == Some('/') {
          var _ := Advance();
          var _ := Advance();
          return true;
        }
        var _ := Advance();
      }
    }

    method ReadNumber() returns (text: string)
      requires Valid() && Has(source, pos, IsDigit)
      modifies this`pos, this`line, this`column
      ensures Valid() && pos == NumberEnd(source, old(pos)) && text == source[old(pos)..pos]
    {
      text := ReadFraction();
      var exponent := ReadExponent();
      text := text + exponent;
    }

    method ReadExponent() returns (text: string)
      requires Valid()
      modifies this`pos, this`line, this`column
      ensures Valid() && pos == ExponentEnd(source, old(pos)) && text == source[old(pos)..pos]
    {
      hide PlaceAfter, RunEnd;
      text := "";
      if Peek(0).None? || !IsExponentMark(Peek(0).value) { return; }
      var lookahead := 1;
      if Peek(lookahead).Some? && IsSign(Peek(lookahead).value) { lookahead := 2; }
      if Peek(lookahead).None? || !IsDigit(Peek(lookahead).value) { return; }
      var mark := Advance();
      text := [mark.value];
      if Peek(0).Some? && IsSign(Peek(0).value) {
        var sign := Advance();
        text := text + [sign.value];
      }
      assert text == source[old(pos)..pos] && pos == ExponentDigits(source, old(pos));
      var digits := ReadWhile(IsDigit);
      text := text + digits;
    }

    method ReadFraction() returns (text: string)
      requires Valid()
      modifies this`pos, this`line, this`column
      ensures Valid() && pos == FractionEnd(source, old(pos)) && text == source[old(pos)..pos]
    {
      hide PlaceAfter, RunEnd, FractionEnd;
      text := "";
      var hasDot := false;
      while true
        invariant Valid() && old(pos) <= pos && text == source[old(pos)..pos]
        invariant FractionEnd(source, old(pos)) ==
          if hasDot then RunEnd(source, pos, IsDigit) else FractionEnd(source, pos)
        decreases |source| - pos
      {
        FractionSteps(source, pos);
        if Peek(0).Some? && IsDigit(Peek(0).value) {
          var c := Advance();
          text := text + [c.value];
        } else if Peek(0) == Some('.') && !hasDot && Peek(1).Some? && IsDigit(Peek(1).value) {
          hasDot := true;
          var c := Advance();
          text := text + [c.value];
        } else {
          return;
        }
      }
    }

    method ReadBasedInteger() returns (text: Option<string>)
      requires Valid() && IsBased(source, pos)
      modifies this`pos, this`line, this`column
      ensures Valid() && text.Some? == BasedValue(source, old(pos)).Some?
      ensures text.Some? ==> pos == BasedEnd(source, old(pos)) && text.value == Decimal(BasedValue(source, old(pos)).value)
    {
      var _ := Advance();
      var marker := Advance();
      var base := MarkerBase(marker.value);
      var digits := ReadWhile(IsAsciiAlnum);
      if digits == "" { return None; }
      var value := ValueOf(digits, base.value);
      if value.None? || value.value > MAX_I64 { return None; }
      return Some(Decimal(value.value));
    }

    method ReadNumberText() returns (text: Option<string>)
      requires Valid() && Has(source, pos, IsDigit)
      modifies this`pos, this`line, this`column
      ensures Valid()
      ensures match NumberText(source, old(pos))
        case None => text.None?
        case Some(r) => text == Some(r.value) && pos == r.end
    {
      if IsBased(source, pos) {
        text := ReadBasedInteger();
      } else {
        var num := ReadNumber();
        text := Some(num);
      }
    }

    method ReadString() returns (text: Option<string>)
      requires Valid() && pos < |source|
      modifies this`pos, this`line, this`column
      ensures Valid()
      ensures match StringBody(source, old(pos) + 1, source[old(pos)])
        case None => text.None?
        case Some(r) => text == Some(r.value) && pos == r.end
    {
      hide PlaceAfter;
      var first := Advance();
      var quote := first.value;
      var result := "";
      JoinedNothing(StringBody(source, pos, quote));
      while Peek(0).Some?
        invariant Valid()
        invariant StringBody(source, old(pos) + 1, quote) == Joined(result, StringBody(source, pos, quote))
        decreases |source| - pos
      {
        var c := Peek(0).value;
        if c == quote {
          JoinedEnd(result, pos + 1);
          var _ := Advance();
          return Some(result);
        }
        if c == '\\' {
          var _ := Advance();
          if Peek(0).None? { break; }
          JoinedCons(result, Unescaped(Peek(0).value), StringBody(source, pos + 1, quote));
          result := result + [Unescaped(Peek(0).value)];
          var _ := Advance();
          continue;
        }
        if c == '\n' { return None; }
        JoinedCons(result, c, StringBody(source, pos + 1, quote));
        var _ := Advance();
        result := result + [c];
      }
      return None;
    }

    method ReadRawString() returns (text: Option<string>)
      requires Valid() && pos < |source|
      modifies this`pos, this`line, this`column
      ensures Valid()
      ensures match RawAt(source, old(pos))
        case None => text.None?
        case Some(r) => text == Some(r.value) && pos == r.end
    {
      hide PlaceAfter;
      var _ := Advance();
      var marks := ReadWhile(IsHash);
      var hashes := |marks|;
      if Peek(0) != Some('"') { return None; }
      var _ := Advance();
      text := ReadRawBody(hashes);
    }

    method ReadRawBody(hashes: nat) returns (text: Option<string>)
      requires Valid()
      modifies this`pos, this`line, this`column
      ensures Valid()
      ensures match RawBody(source, old(pos), hashes)
        case None => text.None?
        case Some(r) => text == Some(r.value) && pos == r.end
    {
      hide PlaceAfter;
      var result := "";
      JoinedNothing(RawBody(source, pos, hashes));
      while Peek(0).Some?
        invariant Valid()
        invariant RawBody(source, old(pos), hashes) == Joined(result, RawBody(source, pos, hashes))
        decreases |source| - pos
      {
        var c := Peek(0).value;
        if c == '"' {
          var matches := HashesFollow(hashes);
          if matches {
            ghost var end := pos + 1 + hashes;
            JoinedEnd(result, end);
            var _ := Advance();
            for i := 0 to hashes
              invariant Valid() && pos == end - hashes + i && end <= |source|
            {
              var _ := Advance();
            }
            return Some(result);
          }
        }
        JoinedCons(result, c, RawBody(source, pos + 1, hashes));
        var _ := Advance();
        result := result + [c];
      }
      return None;
    }

    method HashesFollow(hashes: nat) returns (matches: bool)
      requires pos < |source|
      ensures matches == HashesAt(source, pos + 1, hashes)
    {
      for i := 0 to hashes
        invariant HashesAt(source, pos + 1, i)
      {
        if Peek(i + 1) != Some('#') { return false; }
      }
      return true;
    }

    method ReadCharLiteral() returns (c: Option<char>)
      requires Valid() && pos < |source|
      modifies this`pos, this`line, this`column
      ensures Valid()
      ensures match CharAt(source, old(pos))
        case None => c.None?
        case Some(r) => c == Some(r.value) && pos == r.end
    {
      hide PlaceAfter;
      var _ := Advance();
      if Peek(0) == Some('\\') {
        var _ := Advance();
        if Peek(0).None? { return None; }
        c := CharEscape(Peek(0).value);
        if c.None? { return None; }
        var _ := Advance();
      } else {
        if Peek(0) == Some('\n') || Peek(0).None? { return None; }
        c := Peek(0);
        var _ := Advance();
      }
      if Peek(0) != Some('\'') { return None; }
      var _ := Advance();
    }

    method AdvanceBy(n: nat)
      requires Valid() && pos + n <= |source|
      modifies this`pos, this`line, this`column
      ensures Valid() && pos == old(pos) + n
    {
      for i := 0 to n
        invariant Valid() && pos == old(pos) + i
      {
        var _ := Advance();
      }
    }

    method PushNumber() returns (stop: Option<Lexed>)
      requires Valid() && Has(source, pos, IsDigit)
      modifies this`pos, this`line, this`column, this`tokens
      ensures Valid() && Did(NumberStep(source, old(pos)), pos, old(tokens), tokens, stop)
    {
      hide PlaceAfter, NumberText;
      var num := ReadNumberText();
      if num.None? { return Some(Failed); }
      if column < |num.value| { return Some(Panicked); }
      tokens := tokens + [Token(NumberKind(num.value), num, Place(line, column - |num.value|))];
      return None;
    }

    method PushMinus() returns (stop: Option<Lexed>)
      requires Valid() && pos < |source| && source[pos] == '-'
      modifies this`pos, this`line, this`column, this`tokens
      ensures Valid() && Did(MinusStep(source, old(pos)), pos, old(tokens), tokens, stop)
    {
      hide PlaceAfter, NumberText;
      var start := Place(line, column);
      var _ := Advance();
      if Peek(0) == Some('=') {
        var _ := Advance();
        tokens := tokens + [Token(Sign(MinusAssign), None, start)];
      } else if Peek(0).Some? && IsDigit(Peek(0).value) {
        var num := ReadNumberText();
        if num.None? { return Some(Failed); }
        tokens := tokens + [Token(NumberKind(num.value), Some("-" + num.value), start)];
      } else {
        tokens := tokens + [Token(Sign(Minus), None, start)];
      }
      return None;
    }

    method PushOperator() returns (stop: Option<Lexed>)
      requires Valid() && pos < |source|
      modifies this`pos, this`line, this`column, this`tokens
      ensures Valid() && Did(OperatorStep(source, old(pos)), pos, old(tokens), tokens, stop)
    {
      hide PlaceAfter, OperatorAt, Spelling, MinusStep;
      if source[pos] == '-' {
        stop := PushMinus();
        return;
      }
      var start := Place(line, column);
      var op := OperatorAt(source, pos);
      if op.None? { return Some(Failed); }
      OperatorInside(source, pos);
      AdvanceBy(|Spelling(op.value)|);
      tokens := tokens + [Token(Sign(op.value), if op.value == At then Some("@") else None, start)];
      return None;
    }

    method PushText(kind: Kind, text: Option<string>) returns (stop: Option<Lexed>)
      requires Valid()
      modifies this`tokens
      ensures Valid()
      ensures if text.None? then stop == Some(Failed)
              else stop.None? && tokens == old(tokens) + [Token(kind, text, PlaceAfter(source[..pos]))]
    {
      if text.None? { return Some(Failed); }
      tokens := tokens + [Token(kind, text, Place(line, column))];
      return None;
    }

    method SkipComment() returns (stop: Option<Lexed>)
      requires Valid() && pos + 1 < |source| && source[pos] == '/' && (source[pos + 1] == '/' || source[pos + 1] == '!')
      modifies this`pos, this`line, this`column
      ensures Valid() && Did(CommentStep(source, old(pos)), pos, tokens, tokens, stop)
    {
      hide PlaceAfter;
      var line := source[pos + 1] == '/';
      AdvanceBy(2);
      if line {
        var _ := ReadWhile(NotNewline);
        return None;
      }
      var closed := SkipBlockComment();
      return if closed then None else Some(Failed);
    }

    method PushWord()
      requires Valid() && pos < |source|
      modifies this`pos, this`line, this`column, this`tokens
      ensures Valid() && Did(WordStep(k, source, old(pos)), pos, old(tokens), tokens, None)
    {
      hide PlaceAfter;
      var start := Place(line, column);
      var word := ReadWhile(WordChar(k));
      tokens := tokens + [Token(Word, Some(word), start)];
    }

    /** One round at a character that is not blank. */
    method Round() returns (stop: Option<Lexed>)
      requires Valid() && Sane(k) && pos < |source|
      modifies this`pos, this`line, this`column, this`tokens
      ensures Valid() && Did(StepAt(k, source, old(pos)), pos, old(tokens), tokens, stop)
    {
      hide PlaceAfter, WordStep, NumberStep, OperatorStep, StringBody, RawAt, CommentStep, CharAt, Decimal;
      var c := source[pos];
      if c == '/' && (Peek(1) == Some('/') || Peek(1) == Some('!')) {
        stop := SkipComment();
      } else if c == '\n' {
        var _ := Advance();
        tokens := tokens + [Token(Newline, None, Place(line, column))];
        return None;
      } else if c == 'r' && (Peek(1) == Some('"') || Peek(1) == Some('#')) {
        var text := ReadRawString();
        stop := PushText(StrLit, text);
      } else if k.alpha(c) || c == '_' {
        PushWord();
        return None;
      } else if IsDigit(c) {
        stop := PushNumber();
      } else if c == '"' {
        var text := ReadString();
        stop := PushText(StrLit, text);
      } else if c == '\'' {
        var value := ReadCharLiteral();
        stop := PushText(CharLit, if value.None? then None else Some(Decimal(value.value as int)));
      } else {
        stop := PushOperator();
      }
    }

    method Tokenize() returns (r: Lexed)
      requires Valid() && Sane(k) && pos == 0 && tokens == []
      modifies this
      ensures r == Lex(k, source, 0)
    {
      hide PlaceAfter, StepAt;
      while pos < |source|
        invariant Valid() && Lex(k, source, 0) == Prepend(tokens, Lex(k, source, pos))
        decreases |source| - pos
      {
        LexSkipsBlanks(k, source, pos);
        var _ := ReadWhile(IsBlank);
        if pos >= |source| { break; }
        StepAdvances(k, source, pos);
        ghost var at, before := pos, tokens;
        var stop := Round();
        LexStep(k, source, at, before);
        if stop.Some? { return stop.value; }
      }
      tokens := tokens + [Token(Eof, None, Place(line, column))];
      LexAtEnd(k, source);
      return Tokens(tokens);
    }
  }

  lemma LexAtEnd(k: Classes, s: string)
    requires Sane(k)
    ensures Lex(k, s, |s|) == Tokens([Token(Eof, None, PlaceAfter(s))]) && s[..|s|] == s
  {
  }

  lemma LexSkipsBlanks(k: Classes, s: string, i: nat)
    requires Sane(k) && i <= |s|
    ensures Lex(k, s, i) == Lex(k, s, RunEnd(s, i, IsBlank))
  {
    RunEndIs(s, RunEnd(s, i, IsBlank), IsBlank, RunEnd(s, i, IsBlank));
  }

  /** One step of the text, with the tokens emitted before it put in front. */
  lemma LexStep(k: Classes, s: string, i: nat, front: seq<Token>)
    requires Sane(k) && i < |s| && !IsBlank(s[i])
    ensures match StepAt(k, s, i)
      case Skip(end) => i < end <= |s| && Lex(k, s, i) == Lex(k, s, end)
      case Emit(end, token) =>
        i < end <= |s| && Prepend(front, Lex(k, s, i)) == Prepend(front + [token], Lex(k, s, end))
      case Bad => Prepend(front, Lex(k, s, i)) == Failed
      case Underflow => Prepend(front, Lex(k, s, i)) == Panicked
  {
    hide PlaceAfter, StepAt;
    StepAdvances(k, s, i);
    RunEndIs(s, i, IsBlank, i);
  }

  // ---- where tokens are placed, and when the column subtraction underflows

  lemma NoNewlineInRun(s: string, i: nat, j: nat, p: char -> bool)
    requires i <= j <= |s| && !p('\n') && forall k | i <= k < j :: p(s[k])
    ensures '\n' !in s[i..j]
  {
    forall k | i <= k < j ensures s[k] != '\n' {}
  }

  lemma NumberHasNoNewline(s: string, i: nat)
    requires Has(s, i, IsDigit)
    ensures '\n' !in s[i..NumberEnd(s, i)]
  {
    hide RunEnd;
    var a, b := RunEnd(s, i, IsDigit), FractionEnd(s, i);
    NoNewlineInRun(s, i, a, IsDigit);
    if b > a { NoNewlineInRun(s, a + 1, b, IsDigit); }
    if NumberEnd(s, i) > b { NoNewlineInRun(s, ExponentDigits(s, b), NumberEnd(s, i), IsDigit); }
    forall k | i <= k < NumberEnd(s, i) ensures s[k] != '\n' {
      if k < a {
        assert s[i..a][k - i] == s[k];
      } else if a < k < b {
        assert s[a + 1..b][k - (a + 1)] == s[k];
      } else if ExponentDigits(s, b) <= k {
        assert s[ExponentDigits(s, b)..NumberEnd(s, i)][k - ExponentDigits(s, b)] == s[k];
      }
    }
  }

  /** A number without a base prefix is placed where it starts. */
  lemma PlainNumberIsPlacedAtItsStart(s: string, i: nat)
    requires Has(s, i, IsDigit) && !IsBased(s, i)
    ensures var end := NumberEnd(s, i);
      NumberStep(s, i) == Emit(end, Token(NumberKind(s[i..end]), Some(s[i..end]), PlaceAfter(s[..i])))
  {
    hide PlaceAfter, NumberEnd, NumberKind;
    NumberHasNoNewline(s, i);
    PlaceWithinLine(s, i, NumberEnd(s, i));
  }

  /** An accepted literal with a base prefix underflows exactly when it starts a line and
      has fifteen digits that come to ten to the 18 or more.  Otherwise its column is off
      by the difference between the lengths of its two spellings. */
  lemma BasedNumberIsMisplaced(s: string, i: nat)
    requires IsBased(s, i) && BasedValue(s, i).Some?
    ensures var v, end, start := BasedValue(s, i).value, BasedEnd(s, i), PlaceAfter(s[..i]);
      var num := Decimal(v);
      if start.column == 1 && end - i == 17 && v >= 100_0000_0000_0000_0000 then NumberStep(s, i) == Underflow
      else
        |num| <= start.column + (end - i) &&
        NumberStep(s, i) == Emit(end, Token(NumberKind(num), Some(num), Place(start.line, start.column + (end - i) - |num|)))
  {
    hide PlaceAfter, NumberKind, Decimal;
    var end := BasedEnd(s, i);
    NoNewlineInRun(s, i + 2, end, IsAsciiAlnum);
    assert s[i..end] == [s[i], s[i + 1]] + s[i + 2..end];
    PlaceWithinLine(s, i, end);
    DecimalAgainstLiteral(s, i);
  }

  /** The literals that stop the lexer. */
  ghost predicate Stops(s: string, i: nat) {
    i <= |s| && PlaceAfter(s[..i]).column == 1 && IsBased(s, i) && BasedValue(s, i).Some? &&
    BasedEnd(s, i) - i == 17 && BasedValue(s, i).value >= 100_0000_0000_0000_0000
  }

  lemma UnderflowExactly(k: Classes, s: string, i: nat)
    requires i < |s| && !k.alpha('0')
    ensures StepAt(k, s, i) == Underflow <==> Stops(s, i)
  {
    hide PlaceAfter, NumberText, NumberStep, OperatorStep, RawAt, StringBody, CharAt, CommentStep, BasedValue;
    NoUnderflowElsewhere(s, i);
    if Has(s, i, IsDigit) {
      if IsBased(s, i) {
        if BasedValue(s, i).Some? {
          BasedNumberIsMisplaced(s, i);
        } else {
          RefusedLiteral(s, i);
        }
      } else {
        PlainNumberIsPlacedAtItsStart(s, i);
      }
    }
  }

  lemma RefusedLiteral(s: string, i: nat)
    requires IsBased(s, i) && BasedValue(s, i).None?
    ensures NumberStep(s, i) == Bad
  {
  }

  lemma NoUnderflowElsewhere(s: string, i: nat)
    requires i < |s|
    ensures OperatorStep(s, i) != Underflow
    ensures s[i] == '/' && (Next(s, i, '/') || Next(s, i, '!')) ==> CommentStep(s, i) != Underflow
  {
  }

  /** Lexing from `i` comes to begin a round at `j`. */
  ghost predicate BeginsRoundAt(k: Classes, s: string, i: nat, j: nat)
    requires Sane(k) && i <= |s|
    decreases |s| - i
  {
    var start := RunEnd(s, i, IsBlank);
    start < |s| &&
    (j == start ||
     (StepAdvances(k, s, start);
      match StepAt(k, s, start)
      case Skip(end) => BeginsRoundAt(k, s, end, j)
      case Emit(end, _) => BeginsRoundAt(k, s, end, j)
      case _ => false))
  }

  /** A text stops the lexer exactly when one of its rounds begins at such a literal. */
  lemma {:induction false} PanicsExactly(k: Classes, s: string, i: nat)
    requires Sane(k) && !k.alpha('0') && i <= |s|
    ensures Lex(k, s, i) == Panicked <==> exists j :: BeginsRoundAt(k, s, i, j) && Stops(s, j)
    decreases |s| - i
  {
    hide PlaceAfter, StepAt, Stops;
    var start := RunEnd(s, i, IsBlank);
    if start < |s| {
      StepAdvances(k, s, start);
      UnderflowExactly(k, s, start);
      match StepAt(k, s, start)
      case Skip(end) => PanicsExactly(k, s, end);
      case Emit(end, token) => PanicsExactly(k, s, end);
      case Bad =>
      case Underflow => assert BeginsRoundAt(k, s, i, start);
    }
  }

  /** A text that starts with such a literal stops the lexer, whatever follows. */
  lemma StopsAtOnce(k: Classes, s: string)
    requires Sane(k) && !k.alpha('0') && Stops(s, 0)
    ensures Lex(k, s, 0) == Panicked
  {
    hide PlaceAfter, StepAt;
    RunEndIs(s, 0, IsBlank, 0);
    assert BeginsRoundAt(k, s, 0, 0);
    PanicsExactly(k, s, 0);
  }

  function Fs(n: nat): string {
    seq(n, _ => 'f')
  }

  lemma {:induction false} ValueOfFs(n: nat)
    ensures ValueOf(Fs(n), 16) == Some(Power(16, n) - 1)
  {
    if n > 0 {
      ValueOfFs(n - 1);
      assert Fs(n)[..n - 1] == Fs(n - 1);
    }
  }

  lemma FifteenFs()
    ensures var s := "0x" + Fs(15);
      IsBased(s, 0) && BasedEnd(s, 0) == 17 && BasedValue(s, 0) == Some(0xfff_ffff_ffff_ffff)
  {
    var s := "0x" + Fs(15);
    RunEndIs(s, 2, IsAsciiAlnum, 17);
    assert s[2..17] == Fs(15);
    ValueOfFs(15);
    FourteenDigits();
    assert Power(16, 15) == 16 * Power(16, 14);
  }

  /** The literal with fifteen hexadecimal digits `f` is such a text. */
  lemma ALiteralThatStops(k: Classes)
    requires Sane(k) && !k.alpha('0')
    ensures Lex(k, "0x" + Fs(15), 0) == Panicked
  {
    hide Fs, Lex;
    FifteenFs();
    var s := "0x" + Fs(15);
    assert s[..0] == "";
    assert Stops(s, 0);
    StopsAtOnce(k, s);
  }
}
