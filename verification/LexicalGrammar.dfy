/**
  What the lexer reads at each place of a source text, as functions of the text and an
  index into it.  Positions are counted in characters.
*/
module LexicalGrammar {
  import opened Wrappers
  import opened Text

  // Which characters are letters is a parameter; keywords are not told apart from
  // identifiers.

  datatype Classes = Classes(alpha: char -> bool, alnum: char -> bool)

  ghost predicate Sane(k: Classes) {
    forall c | k.alpha(c) :: k.alnum(c)
  }

  datatype Operator =
    | Assign | Pipeline | PipelineSafe | Eq | Plus | PlusAssign | Minus | MinusAssign | Star | StarAssign
    | Slash | SlashAssign | Percent | PercentAssign | Bang | Neq | Gt | Gte | RShift | Lt | Lte | LShift
    | Amp | AmpAmp | Pipe | PipePipe | Xor | Lparen | Rparen | Lbracket | Rbracket | Lbrace | Rbrace
    | Colon | Comma | Dot | At | Question

  datatype Kind = Word | IntLit | FloatLit | StrLit | CharLit | Newline | Eof | Sign(op: Operator)

  datatype Place = Place(line: nat, column: nat)

  datatype Token = Token(kind: Kind, value: Option<string>, place: Place)

  // ---- places

  function Advanced(p: Place, c: char): Place {
    if c == '\n' then Place(p.line + 1, 1) else p.(column := p.column + 1)
  }

  /** Where the cursor stands once `prefix` is consumed. */
  function PlaceAfter(prefix: string): (p: Place)
    ensures p.line >= 1 && p.column >= 1
  {
    if prefix == "" then Place(1, 1) else Advanced(PlaceAfter(prefix[..|prefix| - 1]), prefix[|prefix| - 1])
  }

  function Newlines(s: string): nat {
    if s == "" then 0 else Newlines(s[..|s| - 1]) + if s[|s| - 1] == '\n' then 1 else 0
  }

  /** Lines are counted by newlines, columns from the last one. */
  lemma {:induction false} PlaceIsCounted(before: string, line: string)
    requires '\n' !in line && (before == "" || before[|before| - 1] == '\n')
    ensures PlaceAfter(before + line) == Place(1 + Newlines(before), 1 + |line|)
  {
    var s := before + line;
    if line == "" {
      assert s == before;
      if before != "" { LinesAreCounted(before); }
    } else {
      PlaceIsCounted(before, line[..|line| - 1]);
      assert s[..|s| - 1] == before + line[..|line| - 1];
      assert s[|s| - 1] == line[|line| - 1] && line[|line| - 1] in line;
    }
  }

  lemma {:induction false} LinesAreCounted(s: string)
    ensures PlaceAfter(s).line == 1 + Newlines(s)
  {
    if s != "" { LinesAreCounted(s[..|s| - 1]); }
  }

  lemma {:induction false} PlaceWithinLine(s: string, i: nat, j: nat)
    requires i <= j <= |s| && '\n' !in s[i..j]
    ensures PlaceAfter(s[..j]) == Place(PlaceAfter(s[..i]).line, PlaceAfter(s[..i]).column + (j - i))
  {
    if i < j {
      assert s[i..j] == s[i..j - 1] + [s[j - 1]];
      PlaceWithinLine(s, i, j - 1);
      assert s[..j][..j - 1] == s[..j - 1];
    }
  }

  // ---- runs

  predicate IsDigit(c: char) {
    '0' <= c <= '9'
  }

  predicate IsBlank(c: char) {
    c == ' ' || c == '\t' || c == '\r'
  }

  predicate IsAsciiAlnum(c: char) {
    IsDigit(c) || 'a' <= c <= 'z' || 'A' <= c <= 'Z'
  }

  /** The end of the run of `p` characters that starts at `i`. */
  function RunEnd(s: string, i: nat, p: char -> bool): (r: nat)
    requires i <= |s|
    ensures i <= r <= |s| && (r < |s| ==> !p(s[r]))
    ensures forall j | i <= j < r :: p(s[j])
    decreases |s| - i
  {
    if i < |s| && p(s[i]) then RunEnd(s, i + 1, p) else i
  }

  lemma {:induction false} RunEndIs(s: string, i: nat, p: char -> bool, r: nat)
    requires i <= r <= |s| && (r < |s| ==> !p(s[r])) && forall j | i <= j < r :: p(s[j])
    ensures RunEnd(s, i, p) == r
    decreases r - i
  {
    if i < r { RunEndIs(s, i + 1, p, r); }
  }

  // ---- numbers

  predicate Has(s: string, i: nat, p: char -> bool) {
    i < |s| && p(s[i])
  }

  predicate IsExponentMark(c: char) {
    c == 'e' || c == 'E'
  }

  predicate IsSign(c: char) {
    c == '+' || c == '-'
  }

  /** The end of the digits and of at most one fraction. */
  function FractionEnd(s: string, i: nat): (r: nat)
    requires i <= |s|
    ensures i <= r <= |s|
  {
    var a := RunEnd(s, i, IsDigit);
    if a < |s| && s[a] == '.' && Has(s, a + 1, IsDigit) then RunEnd(s, a + 1, IsDigit) else a
  }

  lemma FractionSteps(s: string, i: nat)
    requires i <= |s|
    ensures Has(s, i, IsDigit) ==>
      RunEnd(s, i, IsDigit) == RunEnd(s, i + 1, IsDigit) && FractionEnd(s, i) == FractionEnd(s, i + 1)
    ensures !Has(s, i, IsDigit) ==>
      RunEnd(s, i, IsDigit) == i &&
      FractionEnd(s, i) == if i < |s| && s[i] == '.' && Has(s, i + 1, IsDigit) then RunEnd(s, i + 1, IsDigit) else i
  {
  }

  /** Where an exponent's digits start, if its mark stands at `i`. */
  function ExponentDigits(s: string, i: nat): nat {
    if Has(s, i + 1, IsSign) then i + 2 else i + 1
  }

  /** The end of an exponent at `b`; `b` itself if there is none. */
  function ExponentEnd(s: string, b: nat): (r: nat)
    requires b <= |s|
    ensures b <= r <= |s|
  {
    if Has(s, b, IsExponentMark) && Has(s, ExponentDigits(s, b), IsDigit)
    then RunEnd(s, ExponentDigits(s, b), IsDigit) else b
  }

  function NumberEnd(s: string, i: nat): (r: nat)
    requires i <= |s|
    ensures i <= r <= |s|
  {
    ExponentEnd(s, FractionEnd(s, i))
  }

  ghost predicate AllDigits(s: string, i: nat, j: nat) {
    i < j <= |s| && forall k | i <= k < j :: IsDigit(s[k])
  }

  /** `s[i..j]` is digits, an optional fraction and an optional exponent: the digits end
      at `a` and the fraction at `b`. */
  ghost predicate NumeralParts(s: string, i: nat, j: nat, a: nat, b: nat) {
    a <= b <= j <= |s| && AllDigits(s, i, a) &&
    (a == b || (s[a] == '.' && AllDigits(s, a + 1, b))) &&
    (b == j || (IsExponentMark(s[b]) && (AllDigits(s, b + 1, j) || (Has(s, b + 1, IsSign) && AllDigits(s, b + 2, j)))))
  }

  ghost predicate IsNumeral(s: string, i: nat, j: nat) {
    exists a, b :: NumeralParts(s, i, j, a, b)
  }

  /** The lexer reads the longest numeral that starts where it stands. */
  lemma NumberIsLongestNumeral(s: string, i: nat)
    requires Has(s, i, IsDigit)
    ensures IsNumeral(s, i, NumberEnd(s, i))
    ensures forall j: nat | IsNumeral(s, i, j) :: j <= NumberEnd(s, i)
  {
    assert NumeralParts(s, i, NumberEnd(s, i), RunEnd(s, i, IsDigit), FractionEnd(s, i));
    forall j: nat | IsNumeral(s, i, j) ensures j <= NumberEnd(s, i) {
      var a, b :| NumeralParts(s, i, j, a, b);
      NumeralFits(s, i, j, a, b);
    }
  }

  lemma NumeralFits(s: string, i: nat, j: nat, a: nat, b: nat)
    requires NumeralParts(s, i, j, a, b)
    ensures j <= NumberEnd(s, i)
  {
    DigitsFit(s, i, a, IsDigit);
    if a == RunEnd(s, i, IsDigit) {
      if b > a { DigitsFit(s, a + 1, b, IsDigit); }
      if b == FractionEnd(s, i) && j > b { DigitsFit(s, ExponentDigits(s, b), j, IsDigit); }
    }
  }

  lemma DigitsFit(s: string, i: nat, j: nat, p: char -> bool)
    requires i <= j <= |s| && forall k | i <= k < j :: p(s[k])
    ensures j <= RunEnd(s, i, p)
  {
  }

  predicate IsFloat(num: string) {
    '.' in num || 'e' in num || 'E' in num
  }

  /** A numeral is an integer exactly when it is digits throughout. */
  lemma NumeralIsIntegerExactly(s: string, i: nat, j: nat)
    requires IsNumeral(s, i, j)
    ensures !IsFloat(s[i..j]) <==> AllDigits(s, i, j)
  {
    var a: nat, b: nat :| NumeralParts(s, i, j, a, b);
    var num := s[i..j];
    forall k | 0 <= k < |num| && IsDigit(num[k]) ensures num[k] != '.' && !IsExponentMark(num[k]) {}
    if a < j {
      assert num[a - i] == s[a];
      assert b > a ==> s[a] == '.';
      assert b == a ==> IsExponentMark(s[a]);
    }
  }

  // ---- integers with a base prefix

  const MAX_I64 := 0x7fff_ffff_ffff_ffff

  function MarkerBase(c: char): Option<nat> {
    if c == 'b' || c == 'B' then Some(2)
    else if c == 'o' || c == 'O' then Some(8)
    else if c == 'x' || c == 'X' then Some(16)
    else None
  }

  /** A zero and a base marker stand at `i`. */
  predicate IsBased(s: string, i: nat) {
    i + 1 < |s| && s[i] == '0' && MarkerBase(s[i + 1]).Some?
  }

  function DigitValue(c: char): nat {
    if IsDigit(c) then c as int - '0' as int
    else if 'a' <= c <= 'z' then c as int - 'a' as int + 10
    else if 'A' <= c <= 'Z' then c as int - 'A' as int + 10
    else 36
  }

  /** The digits of the bases in use, in either case. */
  lemma DigitsOfSixteen(c: char, d: nat)
    requires d < 16
    ensures DigitValue(c) == d <==> c == "0123456789abcdef"[d] || c == "0123456789ABCDEF"[d]
  {
  }

  function ValueOf(digits: string, base: nat): (v: Option<nat>) {
    if digits == "" then Some(0)
    else
      var d := DigitValue(digits[|digits| - 1]);
      match ValueOf(digits[..|digits| - 1], base)
      case Some(v) => if d < base then Some(v * base + d) else None
      case None => None
  }

  /** The decimal spelling of a number reads back. */
  lemma {:induction false} DecimalReadsBack(n: nat)
    ensures ValueOf(Decimal(n), 10) == Some(n)
  {
    var text := Decimal(n);
    var front := text[..|text| - 1];
    assert DigitValue(text[|text| - 1]) == n % 10;
    if n < 10 {
      assert ValueOf(front, 10) == Some(0);
    } else {
      DecimalReadsBack(n / 10);
      assert front == Decimal(n / 10);
    }
  }

  function BasedEnd(s: string, i: nat): (r: nat)
    requires i + 2 <= |s|
    ensures i + 2 <= r <= |s|
  {
    RunEnd(s, i + 2, IsAsciiAlnum)
  }

  /** The number, if the digits fit the base and a signed 64-bit integer. */
  function BasedValue(s: string, i: nat): Option<nat>
    requires IsBased(s, i)
  {
    var digits := s[i + 2..BasedEnd(s, i)];
    var v := ValueOf(digits, MarkerBase(s[i + 1]).value);
    if digits != "" && v.Some? && v.value <= MAX_I64 then v else None
  }

  function Power(base: nat, n: nat): (p: nat)
    ensures base > 0 ==> p > 0
  {
    if n == 0 then 1 else base * Power(base, n - 1)
  }

  lemma {:induction false} ValueIsBounded(digits: string, base: nat)
    requires base in {2, 8, 16} && ValueOf(digits, base).Some?
    ensures ValueOf(digits, base).value < Power(base, |digits|)
  {
    if digits != "" {
      ValueIsBounded(digits[..|digits| - 1], base);
      if base == 2 {} else if base == 8 {} else {}
    }
  }

  lemma {:induction false} PowerGrows(base: nat, n: nat)
    requires base in {2, 8, 10, 16}
    ensures Power(base, n) <= Power(16, n)
  {
    if n > 0 {
      PowerGrows(base, n - 1);
      if base == 2 {} else if base == 8 {} else if base == 10 {} else {}
    }
  }

  lemma {:induction false} PowerAdds(base: nat, m: nat, n: nat)
    ensures Power(base, m + n) == Power(base, m) * Power(base, n)
  {
    if m > 0 {
      PowerAdds(base, m - 1, n);
      Reassociate(base, Power(base, m - 1), Power(base, n));
    }
  }

  lemma Reassociate(x: nat, y: nat, z: nat)
    ensures x * (y * z) == x * y * z
  {
  }

  /** A number has at most `n` decimal digits exactly when it is below ten to the `n`. */
  lemma {:induction false} DecimalLength(v: nat, n: nat)
    requires n > 0
    ensures |Decimal(v)| <= n <==> v < Power(10, n)
  {
    if v >= 10 {
      if n > 1 {
        DecimalLength(v / 10, n - 1);
      } else {
        assert Power(10, 1) == 10;
      }
    } else {
      PowerAtLeast(10, n);
    }
  }

  lemma {:induction false} PowerAtLeast(base: nat, n: nat)
    requires base > 0 && n > 0
    ensures Power(base, n) >= base
  {
    if n > 1 { PowerAtLeast(base, n - 1); }
  }

  /** Sixteen to the 14 is below ten to the 17, and for fewer digits the gap is narrower. */
  lemma PowersOfSixteen(n: nat)
    requires n <= 14
    ensures Power(16, n) <= Power(10, n + 3)
  {
    var rest := Power(10, 14 - n);
    PowerGrows(10, 14 - n);
    PowerAdds(16, n, 14 - n);
    PowerAdds(10, n + 3, 14 - n);
    FourteenDigits();
    TimesKeepsOrder(Power(16, n), rest, Power(16, 14 - n));
    CancelFactor(Power(16, n), Power(10, n + 3), rest);
  }

  lemma FourteenDigits()
    ensures Power(16, 14) == 0x100_0000_0000_0000 && Power(10, 17) == 10_0000_0000_0000_0000
  {
    assert Power(16, 7) == 0x1000_0000 by { assert Power(16, 4) == 0x1_0000; }
    PowerAdds(16, 7, 7);
    LargePowers();
  }

  lemma TimesKeepsOrder(x: nat, y: nat, z: nat)
    requires y <= z
    ensures x * y <= x * z
  {
  }

  lemma CancelFactor(x: nat, y: nat, factor: nat)
    requires x * factor <= y * factor && factor > 0
    ensures x <= y
  {
    if x > y { TimesKeepsOrder(factor, y + 1, x); }
  }

  lemma LargePowers()
    ensures Power(10, 17) == 10_0000_0000_0000_0000
    ensures Power(10, 18) == 100_0000_0000_0000_0000 && Power(10, 19) == 1000_0000_0000_0000_0000
  {
    assert Power(10, 5) == 100000 by { assert Power(10, 3) == 1000; }
    assert Power(10, 7) == 1000_0000;
    assert Power(10, 9) == 10_0000_0000;
    assert Power(10, 11) == 1000_0000_0000;
    assert Power(10, 13) == 10_0000_0000_0000;
    assert Power(10, 15) == 1000_0000_0000_0000;
    assert Power(10, 17) == 10_0000_0000_0000_0000;
  }

  /** The decimal spelling of an accepted literal is at most two characters longer than
      the literal, and exactly two longer for fifteen digits from ten to the 18 on. */
  lemma DecimalAgainstLiteral(s: string, i: nat)
    requires IsBased(s, i) && BasedValue(s, i).Some?
    ensures var v, digits := BasedValue(s, i).value, BasedEnd(s, i) - (i + 2);
      |Decimal(v)| <= digits + 4 && (|Decimal(v)| == digits + 4 <==> digits == 15 && v >= 100_0000_0000_0000_0000)
  {
    var digits, base := s[i + 2..BasedEnd(s, i)], MarkerBase(s[i + 1]).value;
    var v, n := BasedValue(s, i).value, |digits|;
    ValueIsBounded(digits, base);
    PowerGrows(base, n);
    LargePowers();
    DecimalLength(v, 19);
    DecimalLength(v, 18);
    if n <= 14 {
      PowersOfSixteen(n);
      DecimalLength(v, n + 3);
    }
  }

  // ---- strings

  /** Some text and the index after it. */
  datatype Scanned<T> = Scanned(value: T, end: nat)

  /** The character that a backslash and `c` stand for. */
  function Unescaped(c: char): char {
    if c == 'n' then '\n' else if c == 'r' then '\r' else if c == 't' then '\t' else c
  }

  function Cons(c: char, rest: Option<Scanned<string>>): Option<Scanned<string>> {
    match rest case Some(r) => Some(Scanned([c] + r.value, r.end)) case None => None
  }

  /** The rest of a quoted string from `i`, up to and past its closing quote. */
  function StringBody(s: string, i: nat, quote: char): (r: Option<Scanned<string>>)
    requires i <= |s|
    ensures r.Some? ==> i < r.value.end <= |s|
    decreases |s| - i
  {
    if i == |s| then None
    else if s[i] == quote then Some(Scanned("", i + 1))
    else if s[i] == '\\' then
      if i + 1 == |s| then None else Cons(Unescaped(s[i + 1]), StringBody(s, i + 2, quote))
    else if s[i] == '\n' then None
    else Cons(s[i], StringBody(s, i + 1, quote))
  }

  function Escape(c: char): string {
    if c == '\n' then "\\n" else if c == '\r' then "\\r" else if c == '\t' then "\\t"
    else if c == '\\' then "\\\\" else if c == '"' then "\\\"" else [c]
  }

  function Escaped(text: string): string {
    if text == "" then "" else Escape(text[0]) + Escaped(text[1..])
  }

  /** Reading the quoted form of any text gives the text back. */
  lemma {:induction false} QuotedReadsBack(s: string, i: nat, text: string)
    requires i + |Escaped(text)| < |s| && s[i..i + |Escaped(text)|] == Escaped(text) && s[i + |Escaped(text)|] == '"'
    ensures StringBody(s, i, '"') == Some(Scanned(text, i + |Escaped(text)| + 1))
    decreases |text|
  {
    hide StringBody, Escape;
    if text == "" {
      QuoteReads(s, i);
    } else {
      var e, rest := Escape(text[0]), Escaped(text[1..]);
      SplitSlice(s, i, e, rest);
      QuotedReadsBack(s, i + |e|, text[1..]);
      EscapeReads(s, i, text[0]);
      assert [text[0]] + text[1..] == text;
    }
  }

  lemma SplitSlice(s: string, i: nat, a: string, b: string)
    requires i + |a| + |b| <= |s| && s[i..i + |a| + |b|] == a + b
    ensures s[i..i + |a|] == a && s[i + |a|..i + |a| + |b|] == b
  {
    var t := s[i..i + |a| + |b|];
    assert s[i..i + |a|] == t[..|a|] && s[i + |a|..i + |a| + |b|] == t[|a|..];
  }

  lemma QuoteReads(s: string, i: nat)
    requires i < |s| && s[i] == '"'
    ensures StringBody(s, i, '"') == Some(Scanned("", i + 1))
  {
  }

  lemma EscapeReads(s: string, i: nat, c: char)
    requires i + |Escape(c)| <= |s| && s[i..i + |Escape(c)|] == Escape(c)
    ensures StringBody(s, i, '"') == Cons(c, StringBody(s, i + |Escape(c)|, '"'))
  {
    var e := s[i..i + |Escape(c)|];
    assert s[i] == e[0] && (|e| == 2 ==> s[i + 1] == e[1]);
  }

  // ---- raw strings

  predicate HashesAt(s: string, i: nat, n: nat) {
    i + n <= |s| && forall j | i <= j < i + n :: s[j] == '#'
  }

  /** A quote with `n` hashes closes a raw string. */
  predicate ClosesRaw(s: string, i: nat, n: nat) {
    i < |s| && s[i] == '"' && HashesAt(s, i + 1, n)
  }

  /** The rest of a raw string from `i`: it ends at the first closing mark. */
  function RawBody(s: string, i: nat, n: nat): (r: Option<Scanned<string>>)
    requires i <= |s|
    ensures r.Some? ==> i < r.value.end <= |s|
    decreases |s| - i
  {
    if i == |s| then None
    else if ClosesRaw(s, i, n) then Some(Scanned("", i + 1 + n))
    else Cons(s[i], RawBody(s, i + 1, n))
  }

  lemma {:induction false} RawEndsAtFirstMark(s: string, i: nat, n: nat, j: nat)
    requires i <= j && ClosesRaw(s, j, n) && forall k | i <= k < j :: !ClosesRaw(s, k, n)
    ensures RawBody(s, i, n) == Some(Scanned(s[i..j], j + 1 + n))
    decreases j - i
  {
    if i < j {
      RawEndsAtFirstMark(s, i + 1, n, j);
      assert [s[i]] + s[i + 1..j] == s[i..j];
    }
  }

  lemma {:induction false} RawEndsBy(s: string, i: nat, n: nat, k: nat)
    requires i <= k && ClosesRaw(s, k, n)
    ensures RawBody(s, i, n).Some? && RawBody(s, i, n).value.end <= k + 1 + n
    decreases k - i
  {
    if i < k { RawEndsBy(s, i + 1, n, k); }
  }

  /** A text before a closing mark reads back if and only if no earlier mark stands in it. */
  lemma RawReadsBackExactly(s: string, i: nat, n: nat, j: nat)
    requires i <= j && ClosesRaw(s, j, n)
    ensures RawBody(s, i, n) == Some(Scanned(s[i..j], j + 1 + n)) <==> forall k | i <= k < j :: !ClosesRaw(s, k, n)
  {
    if k :| i <= k < j && ClosesRaw(s, k, n) {
      RawEndsBy(s, i, n, k);
    } else {
      RawEndsAtFirstMark(s, i, n, j);
    }
  }

  // ---- character literals

  function CharEscape(c: char): Option<char> {
    if c == 'n' then Some('\n') else if c == 't' then Some('\t') else if c == 'r' then Some('\r')
    else if c == '\\' || c == '\'' || c == '"' then Some(c) else None
  }

  /** The literal whose opening quote stands at `i`. */
  function CharAt(s: string, i: nat): (r: Option<Scanned<char>>)
    ensures r.Some? ==> i < r.value.end <= |s|
  {
    if i + 1 >= |s| then None
    else if s[i + 1] == '\\' then
      if i + 3 < |s| && CharEscape(s[i + 2]).Some? && s[i + 3] == '\'' then Some(Scanned(CharEscape(s[i + 2]).value, i + 4))
      else None
    else if s[i + 1] == '\n' then None
    else if i + 2 < |s| && s[i + 2] == '\'' then Some(Scanned(s[i + 1], i + 3))
    else None
  }

  // ---- comments

  /** The index after the first "!/" from `i`. */
  function BlockEnd(s: string, i: nat): (r: Option<nat>)
    requires i <= |s|
    ensures r.Some? ==> i < r.value <= |s|
    decreases |s| - i
  {
    if i == |s| then None
    else if s[i] == '!' && i + 1 < |s| && s[i + 1] == '/' then Some(i + 2)
    else BlockEnd(s, i + 1)
  }

  // ---- operators

  function Spelling(op: Operator): (r: string)
    ensures 0 < |r| <= 3
  {
    match op
    case Assign => "=" case Pipeline => "=>" case PipelineSafe => "=>?" case Eq => "=="
    case Plus => "+" case PlusAssign => "+=" case Minus => "-" case MinusAssign => "-="
    case Star => "*" case StarAssign => "*=" case Slash => "/" case SlashAssign => "/="
    case Percent => "%" case PercentAssign => "%=" case Bang => "!" case Neq => "!="
    case Gt => ">" case Gte => ">=" case RShift => ">>" case Lt => "<" case Lte => "<=" case LShift => "<<"
    case Amp => "&" case AmpAmp => "&&" case Pipe => "|" case PipePipe => "||" case Xor => "^"
    case Lparen => "(" case Rparen => ")" case Lbracket => "[" case Rbracket => "]"
    case Lbrace => "{" case Rbrace => "}" case Colon => ":" case Comma => "," case Dot => "."
    case At => "@" case Question => "?"
  }

  predicate Stands(s: string, i: nat, op: Operator) {
    i + |Spelling(op)| <= |s| && s[i..i + |Spelling(op)|] == Spelling(op)
  }

  /** The longest operator at `i`. */
  ghost predicate IsLongestOperator(s: string, i: nat, op: Operator) {
    Stands(s, i, op) && forall o | Stands(s, i, o) :: |Spelling(o)| <= |Spelling(op)|
  }

  predicate Next(s: string, i: nat, c: char) {
    i + 1 < |s| && s[i + 1] == c
  }

  function OneOrTwo(s: string, i: nat, one: Operator, c: char, two: Operator): Operator {
    if Next(s, i, c) then two else one
  }

  /** The operator at `i`, deciding character by character. */
  function OperatorAt(s: string, i: nat): Option<Operator>
    requires i < |s|
  {
    match s[i]
    case '=' =>
      if Next(s, i, '>') then Some(OneOrTwo(s, i + 1, Pipeline, '?', PipelineSafe))
      else Some(OneOrTwo(s, i, Assign, '=', Eq))
    case '+' => Some(OneOrTwo(s, i, Plus, '=', PlusAssign))
    case '-' => Some(OneOrTwo(s, i, Minus, '=', MinusAssign))
    case '*' => Some(OneOrTwo(s, i, Star, '=', StarAssign))
    case '/' => Some(OneOrTwo(s, i, Slash, '=', SlashAssign))
    case '%' => Some(OneOrTwo(s, i, Percent, '=', PercentAssign))
    case '!' => Some(OneOrTwo(s, i, Bang, '=', Neq))
    case '>' => Some(if Next(s, i, '=') then Gte else OneOrTwo(s, i, Gt, '>', RShift))
    case '<' => Some(if Next(s, i, '=') then Lte else OneOrTwo(s, i, Lt, '<', LShift))
    case '&' => Some(OneOrTwo(s, i, Amp, '&', AmpAmp))
    case '|' => Some(OneOrTwo(s, i, Pipe, '|', PipePipe))
    case '^' => Some(Xor)
    case '(' => Some(Lparen)
    case ')' => Some(Rparen)
    case '[' => Some(Lbracket)
    case ']' => Some(Rbracket)
    case '{' => Some(Lbrace)
    case '}' => Some(Rbrace)
    case ':' => Some(Colon)
    case ',' => Some(Comma)
    case '.' => Some(Dot)
    case '@' => Some(At)
    case '?' => Some(Question)
    case _ => None
  }

  lemma StandsIs(s: string, i: nat, op: Operator)
    requires i < |s|
    ensures Stands(s, i, op) <==>
      (s[i] == Spelling(op)[0] && (|Spelling(op)| >= 2 ==> Next(s, i, Spelling(op)[1])) &&
       (|Spelling(op)| == 3 ==> Next(s, i + 1, Spelling(op)[2])))
  {
    hide Spelling;
    ShortPrefix(s, i, Spelling(op));
  }

  lemma ShortPrefix(s: string, i: nat, t: string)
    requires i < |s| && 0 < |t| <= 3
    ensures i + |t| <= |s| && s[i..i + |t|] == t <==>
      (s[i] == t[0] && (|t| >= 2 ==> Next(s, i, t[1])) && (|t| == 3 ==> Next(s, i + 1, t[2])))
  {
    if i + |t| <= |s| {
      var u := s[i..i + |t|];
      assert u[0] == s[i] && (|t| >= 2 ==> u[1] == s[i + 1]) && (|t| == 3 ==> u[2] == s[i + 2]);
      assert |t| == 1 ==> t == [t[0]];
      assert |t| == 2 ==> t == [t[0], t[1]];
      assert |t| == 3 ==> t == [t[0], t[1], t[2]];
    }
  }

  /** Deciding character by character finds the longest operator, or that there is none. */
  lemma OperatorIsLongest(s: string, i: nat)
    requires i < |s|
    ensures match OperatorAt(s, i)
      case Some(op) => IsLongestOperator(s, i, op)
      case None => forall o :: !Stands(s, i, o)
  {
    hide OperatorAt, Stands, Spelling;
    forall o | Stands(s, i, o)
      ensures OperatorAt(s, i).Some? && |Spelling(o)| <= |Spelling(OperatorAt(s, i).value)|
    {
      NoLongerOperator(s, i, o);
    }
    if OperatorAt(s, i).Some? { OperatorStands(s, i); }
  }

  lemma NoLongerOperator(s: string, i: nat, o: Operator)
    requires i < |s| && Stands(s, i, o)
    ensures OperatorAt(s, i).Some? && |Spelling(o)| <= |Spelling(OperatorAt(s, i).value)|
  {
    hide Stands;
    StandsIs(s, i, o);
  }

  lemma OperatorStands(s: string, i: nat)
    requires i < |s| && OperatorAt(s, i).Some?
    ensures Stands(s, i, OperatorAt(s, i).value)
  {
    hide Stands;
    StandsIs(s, i, OperatorAt(s, i).value);
  }
}