/**
  What a token says about the text it was read from, told from the text alone.
*/
module TokenTexts {
  import opened Wrappers
  import opened Text
  import opened LexicalGrammar
  import opened Lexer

  /** A comment runs to the end of its line, or to the first closing mark. */
  predicate IsComment(s: string, i: nat, end: nat) {
    i + 2 <= end <= |s| && s[i] == '/' &&
    if s[i + 1] == '/' then (forall j | i + 2 <= j < end :: s[j] != '\n') && (end < |s| ==> s[end] == '\n')
    else
      s[i + 1] == '!' && i + 4 <= end && s[end - 2] == '!' && s[end - 1] == '/' &&
      forall j | i + 2 <= j < end - 2 :: !(s[j] == '!' && s[j + 1] == '/')
  }

  /** The longest run of word characters, the first of them a letter or '_'. */
  predicate IsWord(k: Classes, s: string, i: nat, end: nat) {
    i < end <= |s| && (k.alpha(s[i]) || s[i] == '_') && (forall j | i <= j < end :: k.alnum(s[j]) || s[j] == '_') &&
    (end < |s| ==> !k.alnum(s[end]) && s[end] != '_')
  }

  /** The longest operator that stands there. */
  predicate IsOperator(s: string, i: nat, end: nat, op: Operator) {
    i < end <= |s| && s[i..end] == Spelling(op) && forall o | Stands(s, i, o) :: |Spelling(o)| <= end - i
  }

  /** A numeral is its own value; a literal with a base prefix has its digits' value in decimal. */
  ghost predicate IsNumber(s: string, i: nat, end: nat, kind: Kind, value: string) {
    var m := if i < |s| && s[i] == '-' then i + 1 else i;
    m < end <= |s| &&
    if IsBased(s, m) then
      m + 2 <= end && kind == IntLit && (end < |s| ==> !IsAsciiAlnum(s[end])) &&
      exists v | ValueOf(s[m + 2..end], MarkerBase(s[m + 1]).value) == Some(v) && v <= MAX_I64 :: value == s[i..m] + Decimal(v)
    else
      value == s[i..end] && IsNumeral(s, m, end) && (forall j: nat | IsNumeral(s, m, j) :: j <= end) &&
      kind == if AllDigits(s, m, end) then IntLit else FloatLit
  }

  /** What a quoted text stands for: a backslash takes the next character with it. */
  function Meant(body: string): Option<string> {
    if body == "" then Some("")
    else if body[0] == '\\' && |body| == 1 then None
    else
      var (c, rest) := if body[0] == '\\' then (Unescaped(body[1]), body[2..]) else (body[0], body[1..]);
      if body[0] == '"' || body[0] == '\n' then None
      else match Meant(rest) case Some(text) => Some([c] + text) case None => None
  }

  predicate IsQuotedText(text: string, value: string) {
    |text| >= 2 && text[0] == '"' && text[|text| - 1] == '"' && Meant(text[1..|text| - 1]) == Some(value)
  }

  function Hashes(n: nat): string {
    seq(n, _ => '#')
  }

  ghost predicate IsRawText(text: string, value: string) {
    exists n: nat :: text == ['r'] + Hashes(n) + ['"'] + value + ['"'] + Hashes(n)
  }

  /** The value of a character literal is the character's number. */
  predicate IsCharText(text: string, value: string) {
    |text| in {3, 4} && text[0] == '\'' && text[|text| - 1] == '\'' &&
    if text[1] == '\\' then |text| == 4 && CharEscape(text[2]).Some? && value == Decimal(CharEscape(text[2]).value as int)
    else |text| == 3 && text[1] != '\n' && value == Decimal(text[1] as int)
  }

  ghost predicate Reads(k: Classes, s: string, i: nat, end: nat, token: Token) {
    i < end <= |s| &&
    match token.kind
    case Newline => s[i..end] == "\n" && token.value.None?
    case Word => IsWord(k, s, i, end) && token.value == Some(s[i..end]) && token.place == PlaceAfter(s[..i])
    case Sign(op) =>
      IsOperator(s, i, end, op) && token.value == (if op == At then Some("@") else None) && token.place == PlaceAfter(s[..i])
    case IntLit => token.value.Some? && IsNumber(s, i, end, IntLit, token.value.value)
    case FloatLit => token.value.Some? && IsNumber(s, i, end, FloatLit, token.value.value)
    case StrLit =>
      token.value.Some? && token.place == PlaceAfter(s[..end]) &&
      if s[i] == 'r' then IsRawText(s[i..end], token.value.value) else IsQuotedText(s[i..end], token.value.value)
    case CharLit => token.value.Some? && IsCharText(s[i..end], token.value.value) && token.place == PlaceAfter(s[..end])
    case Eof => false
  }

  /** What a round skips is a comment, and the token it emits is what stands there. */
  ghost predicate Accounts(k: Classes, s: string, i: nat, step: Step) {
    match step
    case Skip(end) => IsComment(s, i, end)
    case Emit(end, token) => Reads(k, s, i, end, token)
    case _ => true
  }

  lemma {:induction false} BlockEndIsFirst(s: string, i: nat)
    requires i <= |s|
    ensures BlockEnd(s, i).Some? ==>
      var end := BlockEnd(s, i).value;
      i + 2 <= end && s[end - 2] == '!' && s[end - 1] == '/' && forall j | i <= j < end - 2 :: !(s[j] == '!' && s[j + 1] == '/')
    decreases |s| - i
  {
    if i < |s| && !(s[i] == '!' && i + 1 < |s| && s[i + 1] == '/') { BlockEndIsFirst(s, i + 1); }
  }

  lemma CommentIsSkipped(k: Classes, s: string, i: nat)
    requires i + 1 < |s| && s[i] == '/' && (s[i + 1] == '/' || s[i + 1] == '!')
    ensures Accounts(k, s, i, CommentStep(s, i))
  {
    hide RunEnd;
    BlockEndIsFirst(s, i + 2);
    if s[i + 1] == '/' {
      var end := RunEnd(s, i + 2, NotNewline);
      assert forall j | i + 2 <= j < end :: NotNewline(s[j]);
    }
  }

  lemma WordIsRead(k: Classes, s: string, i: nat)
    requires Sane(k) && i < |s| && (k.alpha(s[i]) || s[i] == '_')
    ensures Accounts(k, s, i, WordStep(k, s, i))
  {
    hide RunEnd, PlaceAfter;
    var end := RunEnd(s, i, WordChar(k));
    RunAdvances(s, i, WordChar(k));
    assert forall j | i <= j < end :: WordChar(k)(s[j]);
    assert end < |s| ==> !WordChar(k)(s[end]);
  }

  lemma {:induction false} DecimalIsDigits(n: nat)
    ensures forall c | c in Decimal(n) :: IsDigit(c)
  {
    if n >= 10 { DecimalIsDigits(n / 10); }
  }

  lemma DecimalIsInteger(v: nat)
    ensures NumberKind(Decimal(v)) == IntLit
  {
    DecimalIsDigits(v);
    assert !IsDigit('.') && !IsDigit('e') && !IsDigit('E');
  }

  /** The number whose digits begin at `m`, after a sign or not. */
  lemma NumberIsRead(s: string, i: nat, m: nat)
    requires Has(s, m, IsDigit) && (m == i || (m == i + 1 && s[i] == '-'))
    ensures NumberText(s, m).Some? ==>
      IsNumber(s, i, NumberText(s, m).value.end, NumberKind(NumberText(s, m).value.value), s[i..m] + NumberText(s, m).value.value)
  {
    hide RunEnd, NumberEnd, Decimal, ValueOf;
    if NumberText(s, m).Some? {
      var r := NumberText(s, m).value;
      if IsBased(s, m) {
        var v := BasedValue(s, m).value;
        DecimalIsInteger(v);
        assert ValueOf(s[m + 2..r.end], MarkerBase(s[m + 1]).value) == Some(v);
      } else {
        NumberIsLongestNumeral(s, m);
        NumeralIsIntegerExactly(s, m, r.end);
        assert s[i..m] + s[m..r.end] == s[i..r.end];
      }
    }
  }

  lemma LongestIsRead(k: Classes, s: string, i: nat, op: Operator)
    requires IsLongestOperator(s, i, op)
    ensures Reads(k, s, i, i + |Spelling(op)|, Token(Sign(op), if op == At then Some("@") else None, PlaceAfter(s[..i])))
  {
    hide Spelling, PlaceAfter;
  }

  lemma OperatorIsRead(k: Classes, s: string, i: nat)
    requires i < |s|
    ensures Accounts(k, s, i, OperatorStep(s, i))
  {
    hide Spelling, PlaceAfter, Stands, OperatorAt, MinusStep, Reads, IsLongestOperator;
    OperatorIsLongest(s, i);
    if s[i] == '-' { MinusIsRead(k, s, i); }
    else if OperatorAt(s, i).Some? { LongestIsRead(k, s, i, OperatorAt(s, i).value); }
  }

  lemma MinusStands(s: string, i: nat)
    requires i < |s| && s[i] == '-'
    ensures IsLongestOperator(s, i, if Next(s, i, '=') then MinusAssign else Minus)
  {
    hide Spelling, Stands, IsLongestOperator;
    OperatorIsLongest(s, i);
  }

  lemma MinusIsRead(k: Classes, s: string, i: nat)
    requires i < |s| && s[i] == '-'
    ensures Accounts(k, s, i, MinusStep(s, i))
  {
    hide PlaceAfter, NumberText, IsNumber, IsLongestOperator, Stands, IsOperator;
    if Next(s, i, '=') || !Has(s, i + 1, IsDigit) {
      MinusStands(s, i);
      LongestIsRead(k, s, i, if Next(s, i, '=') then MinusAssign else Minus);
      assert |Spelling(MinusAssign)| == 2 && |Spelling(Minus)| == 1;
    } else {
      NumberIsRead(s, i, i + 1);
      assert s[i..i + 1] == "-";
    }
  }

  lemma PlainNumberIsRead(k: Classes, s: string, i: nat)
    requires Has(s, i, IsDigit)
    ensures Accounts(k, s, i, NumberStep(s, i))
  {
    hide PlaceAfter, NumberText, IsNumber;
    NumberIsRead(s, i, i);
    if NumberText(s, i).Some? { assert s[i..i] + NumberText(s, i).value.value == NumberText(s, i).value.value; }
  }

  lemma {:induction false} BodyIsMeant(s: string, i: nat)
    requires i <= |s| && StringBody(s, i, '"').Some?
    ensures var r := StringBody(s, i, '"').value; s[r.end - 1] == '"' && Meant(s[i..r.end - 1]) == Some(r.value)
    decreases |s| - i
  {
    var r := StringBody(s, i, '"').value;
    var body := s[i..r.end - 1];
    if s[i] == '"' {
      assert body == "";
    } else if s[i] == '\\' {
      BodyIsMeant(s, i + 2);
      assert body[0] == s[i] && body[1] == s[i + 1] && body[2..] == s[i + 2..r.end - 1];
    } else {
      BodyIsMeant(s, i + 1);
      assert body[0] == s[i] && body[1..] == s[i + 1..r.end - 1];
    }
  }

  lemma {:induction false} RawIsItsText(s: string, i: nat, n: nat)
    requires i <= |s| && RawBody(s, i, n).Some?
    ensures var r := RawBody(s, i, n).value; s[i..r.end] == r.value + ['"'] + Hashes(n)
    decreases |s| - i
  {
    var r := RawBody(s, i, n).value;
    if ClosesRaw(s, i, n) {
      assert s[i..r.end] == "" + ['"'] + Hashes(n);
    } else {
      RawIsItsText(s, i + 1, n);
      assert s[i..r.end] == [s[i]] + s[i + 1..r.end];
      assert [s[i]] + (r.value[1..] + ['"'] + Hashes(n)) == r.value + ['"'] + Hashes(n);
    }
  }

  lemma SliceEnds(s: string, i: nat, end: nat)
    requires i + 2 <= end <= |s|
    ensures s[i..end][0] == s[i] && s[i..end][end - i - 1] == s[end - 1] && s[i..end][1..end - i - 1] == s[i + 1..end - 1]
  {
    var text := s[i..end];
    var inner, body := text[1..end - i - 1], s[i + 1..end - 1];
    forall j | 0 <= j < |body| ensures inner[j] == body[j] {
      assert inner[j] == text[j + 1];
    }
    assert inner == body;
  }

  lemma QuotedText(s: string, i: nat)
    requires i < |s| && s[i] == '"' && StringBody(s, i + 1, '"').Some?
    ensures var r := StringBody(s, i + 1, '"').value; IsQuotedText(s[i..r.end], r.value)
  {
    hide StringBody, Meant;
    var r := StringBody(s, i + 1, '"').value;
    BodyIsMeant(s, i + 1);
    SliceEnds(s, i, r.end);
    assert |s[i..r.end]| == r.end - i;
  }

  lemma QuotedIsRead(k: Classes, s: string, i: nat)
    requires i < |s| && s[i] == '"'
    ensures Accounts(k, s, i, TextStep(s, StrLit, StringBody(s, i + 1, '"')))
  {
    hide PlaceAfter, StringBody, IsQuotedText;
    if StringBody(s, i + 1, '"').Some? { QuotedText(s, i); }
  }

  lemma RawText(s: string, i: nat)
    requires i < |s| && s[i] == 'r' && RawAt(s, i).Some?
    ensures IsRawText(s[i..RawAt(s, i).value.end], RawAt(s, i).value.value)
  {
    hide RunEnd, RawBody;
    var r, h := RawAt(s, i).value, RunEnd(s, i + 1, IsHash);
    var n := h - (i + 1);
    RawIsItsText(s, h + 1, n);
    assert forall j | i + 1 <= j < h :: IsHash(s[j]);
    assert s[i..h + 1] == ['r'] + Hashes(n) + ['"'];
    assert s[i..r.end] == s[i..h + 1] + s[h + 1..r.end];
    assert s[i..r.end] == ['r'] + Hashes(n) + ['"'] + r.value + ['"'] + Hashes(n);
  }

  lemma RawIsRead(k: Classes, s: string, i: nat)
    requires i < |s| && s[i] == 'r'
    ensures Accounts(k, s, i, TextStep(s, StrLit, RawAt(s, i)))
  {
    hide PlaceAfter, RawAt, IsRawText;
    if RawAt(s, i).Some? { RawText(s, i); }
  }

  lemma CharIsRead(k: Classes, s: string, i: nat)
    requires i < |s| && s[i] == '\''
    ensures Accounts(k, s, i, CharStep(s, i))
  {
    hide PlaceAfter, Decimal;
    if CharAt(s, i).Some? {
      var end := CharAt(s, i).value.end;
      assert forall j | i <= j < end :: s[i..end][j - i] == s[j];
    }
  }

  lemma StepReadsTheText(k: Classes, s: string, i: nat)
    requires Sane(k) && i < |s|
    ensures Accounts(k, s, i, StepAt(k, s, i))
  {
    hide PlaceAfter, CommentStep, WordStep, NumberStep, CharStep, OperatorStep, TextStep, RawAt, StringBody, IsWord, IsNumber,
         IsOperator, IsComment;
    if s[i] == '/' && (Next(s, i, '/') || Next(s, i, '!')) {
      CommentIsSkipped(k, s, i);
    } else if s[i] == '\n' {
      assert s[i..i + 1] == "\n";
    } else if s[i] == 'r' && (Next(s, i, '"') || Next(s, i, '#')) {
      RawIsRead(k, s, i);
    } else if k.alpha(s[i]) || s[i] == '_' {
      WordIsRead(k, s, i);
    } else if IsDigit(s[i]) {
      PlainNumberIsRead(k, s, i);
    } else if s[i] == '"' {
      QuotedIsRead(k, s, i);
    } else if s[i] == '\'' {
      CharIsRead(k, s, i);
    } else {
      OperatorIsRead(k, s, i);
    }
  }

  // ---- a whole text

  predicate AllBlank(s: string, i: nat, j: nat) {
    i <= j <= |s| && forall x | i <= x < j :: IsBlank(s[x])
  }

  /** A stretch of the text: what a token was read from, or a comment. */
  datatype Stretch = Stretch(start: nat, end: nat, token: Option<Token>)

  function TokensOf(layout: seq<Stretch>): seq<Token> {
    if layout == [] then []
    else (if layout[0].token.Some? then [layout[0].token.value] else []) + TokensOf(layout[1..])
  }

  /** The stretches follow one another from `i` to the end of the text, blanks between them. */
  ghost predicate IsLayout(k: Classes, s: string, i: nat, layout: seq<Stretch>)
    decreases |layout|
  {
    if layout == [] then AllBlank(s, i, |s|)
    else
      var p := layout[0];
      i <= p.start < p.end <= |s| && AllBlank(s, i, p.start) &&
      (if p.token.Some? then Reads(k, s, p.start, p.end, p.token.value) else IsComment(s, p.start, p.end)) &&
      IsLayout(k, s, p.end, layout[1..])
  }

  /** A text that the lexer accepts is laid out in the tokens it gives, comments and blanks:
      nothing is read twice and nothing is passed over. */
  lemma {:induction false} AcceptedTextIsLaidOut(k: Classes, s: string, i: nat) returns (layout: seq<Stretch>)
    requires Sane(k) && i <= |s| && Lex(k, s, i).Tokens?
    ensures IsLayout(k, s, i, layout)
    ensures Lex(k, s, i).tokens == TokensOf(layout) + [Token(Eof, None, PlaceAfter(s))]
    decreases |s| - i
  {
    hide PlaceAfter, StepAt, Reads, IsComment;
    var j := RunEnd(s, i, IsBlank);
    if j == |s| {
      layout := [];
      assert TokensOf([]) + [Token(Eof, None, PlaceAfter(s))] == [Token(Eof, None, PlaceAfter(s))];
    } else {
      StepAdvances(k, s, j);
      StepReadsTheText(k, s, j);
      match StepAt(k, s, j)
      case Skip(end) =>
        var rest := AcceptedTextIsLaidOut(k, s, end);
        layout := [Stretch(j, end, None)] + rest;
        assert layout[1..] == rest && [] + TokensOf(rest) == TokensOf(rest);
      case Emit(end, token) =>
        var rest := AcceptedTextIsLaidOut(k, s, end);
        layout := [Stretch(j, end, Some(token))] + rest;
        assert layout[1..] == rest;
        assert [token] + (TokensOf(rest) + [Token(Eof, None, PlaceAfter(s))]) ==
               [token] + TokensOf(rest) + [Token(Eof, None, PlaceAfter(s))];
      case _ =>
    }
  }
}
