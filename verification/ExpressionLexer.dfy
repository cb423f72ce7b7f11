/** The characters of printed expressions, and a lexer that gives their tokens back (chapter 2 of The Python
    Language Reference, as far as these tokens go). */
module ExpressionLexer {
  import opened Basics
  import opened Expressions
  import D = DecimalStrings
  import S = StrLiteral

  // ----- Spellings -----

  /** What each token is written as; the literal of a string depends on which characters are printable. */
  function Spelling(t: Token, printable: int -> bool): string {
    match t
    case Word(id) => id
    case Number(n) => NumberSpelling(n)
    case Float(repr) => repr
    case StringLit(s) => StringSpelling(s, printable)
    case _ => Mark(t)
  }

  /** Keywords and operators */
  function Mark(t: Token): (s: string)
    requires !t.Word? && !t.Number? && !t.Float? && !t.StringLit?
    ensures s != ""
  {
    match t
    case KwTrue => "True"
    case KwFalse => "False"
    case KwNone => "None"
    case KwNot => "not"
    case KwAnd => "and"
    case KwOr => "or"
    case KwIf => "if"
    case KwElse => "else"
    case KwLambda => "lambda"
    case KwIs => "is"
    case KwIn => "in"
    case LParen => "("
    case RParen => ")"
    case LBracket => "["
    case RBracket => "]"
    case Comma => ","
    case Colon => ":"
    case Dot => "."
    case Dots => "..."
    case Walrus => ":="
    case Assign => "="
    case Plus => "+"
    case Minus => "-"
    case Star => "*"
    case At => "@"
    case Slash => "/"
    case Percent => "%"
    case LeftShift => "<<"
    case RightShift => ">>"
    case Bar => "|"
    case Caret => "^"
    case Ampersand => "&"
    case SlashSlash => "//"
    case StarStar => "**"
    case Tilde => "~"
    case EqualEqual => "=="
    case NotEqual => "!="
    case Less => "<"
    case LessEqual => "<="
    case Greater => ">"
    case GreaterEqual => ">="
  }

  function NumberSpelling(n: nat): (s: string)
    ensures D.IsNumeral(s) && D.DecValue(s) == n
  {
    D.StrIsNumeral(n);
    D.Str(n)
  }

  // ----- Strings -----

  /** A code point that a `char` can be; lone surrogates cannot, and are never printable. */
  predicate IsScalar(c: int) {
    0 <= c < 0xd800 || 0xe000 <= c < 0x110000
  }

  function AsChar(c: int): char {
    if IsScalar(c) then c as char else ' '
  }

  function AsText(s: S.Str): string {
    seq(|s|, i requires 0 <= i < |s| => AsChar(s[i]))
  }

  function Codes(s: string): S.Str {
    seq(|s|, i requires 0 <= i < |s| => s[i] as int)
  }

  function StringSpelling(s: S.Str, printable: int -> bool): string {
    if S.IsStr(s) then AsText(S.ReprLiteral(s, printable)) else ""
  }

  /** `str.isprintable` of one character: neither control characters nor surrogates are printable. */
  ghost predicate TextTable(printable: int -> bool) {
    S.PrintableTable(printable) && forall c :: printable(c) ==> IsScalar(c)
  }

  predicate AllScalar(s: S.Str) {
    forall i :: 0 <= i < |s| ==> IsScalar(s[i])
  }

  lemma CodesOfText(s: S.Str, more: string)
    requires AllScalar(s)
    ensures Codes(AsText(s) + more) == s + Codes(more)
  {
  }

  lemma {:induction false} HexIsScalar(v: nat, k: nat)
    ensures AllScalar(S.HexDigits(v, k))
  {
    if k > 0 {
      HexIsScalar(v / 16, k - 1);
    }
  }

  lemma EscapeIsScalar(c: int)
    requires S.IsCodePoint(c)
    ensures AllScalar(S.UnicodeEscape(c))
  {
    HexIsScalar(c, 2);
    HexIsScalar(c, 4);
    HexIsScalar(c, 8);
  }

  lemma {:induction false} WrittenIsScalar(s: S.Str, quote: int, printable: int -> bool)
    requires S.IsStr(s) && TextTable(printable) && (quote == S.SINGLE || quote == S.DOUBLE)
    ensures AllScalar(S.Written(s, S.Repr(quote), printable))
  {
    if s != [] {
      EscapeIsScalar(s[0]);
      WrittenIsScalar(s[1..], quote, printable);
    }
  }

  lemma ReprIsScalar(s: S.Str, printable: int -> bool)
    requires S.IsStr(s) && TextTable(printable)
    ensures AllScalar(S.ReprLiteral(s, printable))
  {
    WrittenIsScalar(s, S.ReprQuote(s), printable);
  }

  predicate IsQuote(c: char) {
    c == '\'' || c == '"'
  }

  // ----- Text -----

  function PieceText(p: Piece, printable: int -> bool): string {
    (if p.before then " " else "") + Spelling(p.token, printable) + (if p.after then " " else "")
  }

  /** `"".join(self._source)` */
  function Text(ps: seq<Piece>, printable: int -> bool): string {
    if ps == [] then "" else PieceText(ps[0], printable) + Text(ps[1..], printable)
  }

  // ----- Words -----

  predicate IsIdStart(c: char) {
    'a' <= c <= 'z' || 'A' <= c <= 'Z' || c == '_' || c as int >= 128
  }

  predicate IsIdChar(c: char) {
    IsIdStart(c) || D.IsDigit(c)
  }

  predicate IsReserved(w: string) {
    w in {
      "False", "None", "True", "and", "as", "assert", "async", "await", "break", "class", "continue", "def", "del",
      "elif", "else", "except", "finally", "for", "from", "global", "if", "import", "in", "is", "lambda", "nonlocal",
      "not", "or", "pass", "raise", "return", "try", "while", "with", "yield" }
  }

  predicate IsName(w: string) {
    w != "" && IsIdStart(w[0]) && (forall i :: 0 <= i < |w| ==> IsIdChar(w[i])) && !IsReserved(w)
  }

  /** The reserved words that occur in these expressions, and names; other reserved words are refused. */
  function WordToken(w: string): Option<Token> {
    if w == "True" then Some(KwTrue)
    else if w == "False" then Some(KwFalse)
    else if w == "None" then Some(KwNone)
    else if w == "not" then Some(KwNot)
    else if w == "and" then Some(KwAnd)
    else if w == "or" then Some(KwOr)
    else if w == "if" then Some(KwIf)
    else if w == "else" then Some(KwElse)
    else if w == "lambda" then Some(KwLambda)
    else if w == "is" then Some(KwIs)
    else if w == "in" then Some(KwIn)
    else if IsReserved(w) then None
    else Some(Word(w))
  }

  // ----- The lexer -----

  function IdRun(s: string): (n: nat)
    ensures n <= |s|
  {
    if s != "" && IsIdChar(s[0]) then 1 + IdRun(s[1..]) else 0
  }

  function DigitRun(s: string): (n: nat)
    ensures n <= |s|
  {
    if s != "" && D.IsDigit(s[0]) then 1 + DigitRun(s[1..]) else 0
  }

  /** The character at i, or a space after the end */
  function CharAt(s: string, i: nat): char {
    if i < |s| then s[i] else ' '
  }

  /** A token and the number of characters it takes; operators are as long as possible, and those that no
      expression has are refused. */
  function LexSymbol(s: string): Option<(Token, nat)>
    requires s != ""
  {
    var c, d, e := s[0], CharAt(s, 1), CharAt(s, 2);
    if c == '(' then Some((LParen, 1))
    else if c == ')' then Some((RParen, 1))
    else if c == '[' then Some((LBracket, 1))
    else if c == ']' then Some((RBracket, 1))
    else if c == ',' then Some((Comma, 1))
    else if c == '~' then Some((Tilde, 1))
    else if c == '.' then
      if d == '.' && e == '.' then Some((Dots, 3)) else if D.IsDigit(d) then None else Some((Dot, 1))
    else if c == ':' then Some(if d == '=' then (Walrus, 2) else (Colon, 1))
    else if c == '=' then Some(if d == '=' then (EqualEqual, 2) else (Assign, 1))
    else if c == '!' then if d == '=' then Some((NotEqual, 2)) else None
    else LexOperator(c, d, e)
  }

  function LexOperator(c: char, d: char, e: char): Option<(Token, nat)> {
    if c == '*' && d == '*' then if e == '=' then None else Some((StarStar, 2))
    else if c == '/' && d == '/' then if e == '=' then None else Some((SlashSlash, 2))
    else if c == '<' && d == '<' then if e == '=' then None else Some((LeftShift, 2))
    else if c == '>' && d == '>' then if e == '=' then None else Some((RightShift, 2))
    else if c == '<' then if d == '=' then Some((LessEqual, 2)) else if d == '>' then None else Some((Less, 1))
    else if c == '>' then Some(if d == '=' then (GreaterEqual, 2) else (Greater, 1))
    else if d == '=' || (c == '-' && d == '>') then None
    else if c == '+' then Some((Plus, 1))
    else if c == '-' then Some((Minus, 1))
    else if c == '*' then Some((Star, 1))
    else if c == '@' then Some((At, 1))
    else if c == '/' then Some((Slash, 1))
    else if c == '%' then Some((Percent, 1))
    else if c == '|' then Some((Bar, 1))
    else if c == '^' then Some((Caret, 1))
    else if c == '&' then Some((Ampersand, 1))
    else None
  }

  // ----- Numbers -----

  function AfterDigits(s: string, i: nat): nat {
    if i <= |s| then i + DigitRun(s[i..]) else i
  }

  /** The end of a fraction that starts at i, if one does */
  function AfterFraction(s: string, i: nat): nat {
    if CharAt(s, i) == '.' then AfterDigits(s, i + 1) else i
  }

  function AfterExponent(s: string, i: nat): nat {
    if CharAt(s, i) != 'e' && CharAt(s, i) != 'E' then i
    else if D.IsDigit(CharAt(s, i + 1)) then AfterDigits(s, i + 1)
    else if (CharAt(s, i + 1) == '+' || CharAt(s, i + 1) == '-') && D.IsDigit(CharAt(s, i + 2)) then
      AfterDigits(s, i + 2)
    else i
  }

  function AfterSuffix(s: string, i: nat): nat {
    if CharAt(s, i) == 'j' || CharAt(s, i) == 'J' then i + 1 else i
  }

  /** The end of the number at the start of s */
  function NumberRun(s: string): nat {
    AfterSuffix(s, AfterExponent(s, AfterFraction(s, DigitRun(s))))
  }

  /** A number with a fraction, an exponent or an imaginary suffix */
  predicate IsFloatText(t: string) {
    t != "" && D.IsDigit(t[0]) && NumberRun(t) == |t| && DigitRun(t) < |t|
  }

  /** An integer, or another number; no letter may follow directly. */
  function LexNumeric(s: string): Option<(Token, nat)> {
    var n, m := DigitRun(s), NumberRun(s);
    if m > |s| || IsIdChar(CharAt(s, m)) then None
    else if n < m then Some((Float(s[..m]), m))
    else if D.IsNumeral(s[..n]) && D.DecValue(s[..n]) >= 0 then Some((Number(D.DecValue(s[..n])), n))
    else None
  }

  function LexString(s: string): Option<(Token, nat)> {
    match S.ReadLiteral(Codes(s))
    case None => None
    case Some((value, rest)) => if |rest| <= |s| then Some((StringLit(value), |s| - |rest|)) else None
  }

  /** A word, a number, a string or an operator; a word before a quote would be a prefix. */
  function LexToken(s: string): Option<(Token, nat)>
    requires s != ""
  {
    if IsIdStart(s[0]) then
      var w := WordToken(s[..IdRun(s)]);
      if w.None? || IsQuote(CharAt(s, IdRun(s))) then None else Some((w.value, IdRun(s)))
    else if D.IsDigit(s[0]) then LexNumeric(s)
    else if IsQuote(s[0]) then LexString(s)
    else LexSymbol(s)
  }

  function Lex(s: string): Option<seq<Token>>
    decreases |s|
  {
    if s == "" then Some([])
    else if s[0] == ' ' then Lex(s[1..])
    else
      var t := LexToken(s);
      if t.None? || t.value.1 == 0 || t.value.1 > |s| then None
      else
        var more := Lex(s[t.value.1..]);
        if more.None? then None else Some([t.value.0] + more.value)
  }

  // ----- Where tokens end -----

  predicate IsWordLike(t: Token) {
    || t.Word? || t.KwTrue? || t.KwFalse? || t.KwNone? || t.KwNot? || t.KwAnd? || t.KwOr? || t.KwIf? || t.KwElse?
    || t.KwLambda? || t.KwIs? || t.KwIn?
  }

  /** The tokens that no character after them changes */
  predicate IsClosed(t: Token) {
    t.LParen? || t.RParen? || t.LBracket? || t.RBracket? || t.Comma? || t.Tilde? || t.Dots?
  }

  predicate Extends(c: char) {
    c == '=' || c == '<' || c == '>' || c == '*' || c == '/'
  }

  /** The token t ends before the character c. */
  predicate StopsAt(t: Token, c: char) {
    if IsWordLike(t) then !IsIdChar(c) && !IsQuote(c)
    else if t.Number? then !IsIdChar(c) && c != '.'
    else if t.Float? then !IsIdChar(c)
    else if t.StringLit? then !IsQuote(c)
    else if t.Dot? then c != '.' && !D.IsDigit(c)
    else IsClosed(t) || !Extends(c)
  }

  predicate TokenOk(t: Token) {
    && (t.Word? ==> IsName(t.id))
    && (t.Float? ==> IsFloatText(t.repr))
    && (t.StringLit? ==> S.IsStr(t.s))
  }

  // ----- Lexing one token -----

  lemma {:induction false} IdRunOf(w: string, more: string)
    requires (forall i :: 0 <= i < |w| ==> IsIdChar(w[i])) && !IsIdChar(CharAt(more, 0))
    ensures IdRun(w + more) == |w|
  {
    if w == "" {
      assert w + more == more;
    } else {
      IdRunOf(w[1..], more);
      assert (w + more)[1..] == w[1..] + more;
    }
  }

  lemma {:induction false} DigitRunOf(w: string, more: string)
    requires D.AllDigits(w) && !D.IsDigit(CharAt(more, 0))
    ensures DigitRun(w + more) == |w|
  {
    if w == "" {
      assert w + more == more;
    } else {
      DigitRunOf(w[1..], more);
      assert (w + more)[1..] == w[1..] + more;
    }
  }

  /** The spelling of a word or keyword */
  function WordSpelling(t: Token): string
    requires IsWordLike(t)
  {
    if t.Word? then t.id else Mark(t)
  }

  lemma KeywordToken(t: Token)
    requires IsWordLike(t) && TokenOk(t)
    ensures WordSpelling(t) != "" && IsIdStart(WordSpelling(t)[0])
    ensures forall i :: 0 <= i < |WordSpelling(t)| ==> IsIdChar(WordSpelling(t)[i])
    ensures WordToken(WordSpelling(t)) == Some(t)
  {
  }

  lemma LexWord(t: Token, w: string, more: string)
    requires w != "" && IsIdStart(w[0]) && (forall i :: 0 <= i < |w| ==> IsIdChar(w[i])) && WordToken(w) == Some(t)
    requires !IsIdChar(CharAt(more, 0)) && !IsQuote(CharAt(more, 0))
    ensures LexToken(w + more) == Some((t, |w|))
  {
    IdRunOf(w, more);
    assert (w + more)[..|w|] == w;
    assert CharAt(w + more, |w|) == CharAt(more, 0);
  }

  lemma LexNumber(n: nat, more: string)
    requires StopsAt(Number(n), CharAt(more, 0))
    ensures LexToken(NumberSpelling(n) + more) == Some((Number(n), |NumberSpelling(n)|))
  {
    var w := NumberSpelling(n);
    DigitRunOf(w, more);
    assert (w + more)[..|w|] == w;
    assert CharAt(w + more, |w|) == CharAt(more, 0);
    assert D.IsDigit(w[0]);
    assert NumberRun(w + more) == |w|;
  }

  // ----- Floating-point and imaginary numbers -----

  lemma {:induction false} DigitRunMore(t: string, more: string)
    requires !D.IsDigit(CharAt(more, 0))
    ensures DigitRun(t + more) == DigitRun(t)
  {
    if t == "" {
      assert t + more == more;
    } else {
      DigitRunMore(t[1..], more);
      assert (t + more)[1..] == t[1..] + more;
    }
  }

  lemma AfterDigitsMore(t: string, more: string, i: nat)
    requires i <= |t| && !D.IsDigit(CharAt(more, 0))
    ensures AfterDigits(t + more, i) == AfterDigits(t, i) <= |t|
  {
    DigitRunMore(t[i..], more);
    assert (t + more)[i..] == t[i..] + more;
  }

  lemma CharMore(t: string, more: string, i: nat)
    ensures i < |t| ==> CharAt(t + more, i) == t[i] == CharAt(t, i)
    ensures i == |t| ==> CharAt(t + more, i) == CharAt(more, 0) && CharAt(t, i) == ' '
  {
  }

  lemma FractionMore(t: string, more: string, i: nat)
    requires i < |t| && !D.IsDigit(CharAt(more, 0))
    ensures AfterFraction(t + more, i) == AfterFraction(t, i) <= |t|
  {
    CharMore(t, more, i);
    AfterDigitsMore(t, more, i + 1);
  }

  lemma ExponentMore(t: string, more: string, i: nat)
    requires i <= |t| && !IsIdChar(CharAt(more, 0))
    requires AfterSuffix(t, AfterExponent(t, i)) == |t|
    ensures AfterExponent(t + more, i) == AfterExponent(t, i) <= |t|
  {
    CharMore(t, more, i);
    CharMore(t, more, i + 1);
    CharMore(t, more, i + 2);
    if i + 1 <= |t| {
      AfterDigitsMore(t, more, i + 1);
    }
    if i + 2 <= |t| {
      AfterDigitsMore(t, more, i + 2);
    }
  }

  lemma SuffixMore(t: string, more: string, i: nat)
    requires i <= |t| && !IsIdChar(CharAt(more, 0))
    ensures AfterSuffix(t + more, i) == AfterSuffix(t, i)
  {
    CharMore(t, more, i);
  }

  lemma NumberRunMore(t: string, more: string)
    requires IsFloatText(t) && !IsIdChar(CharAt(more, 0))
    ensures DigitRun(t + more) == DigitRun(t) && NumberRun(t + more) == |t|
  {
    DigitRunMore(t, more);
    FractionMore(t, more, DigitRun(t));
    ExponentMore(t, more, AfterFraction(t, DigitRun(t)));
    SuffixMore(t, more, AfterExponent(t, AfterFraction(t, DigitRun(t))));
  }

  lemma LexFloat(t: string, more: string)
    requires IsFloatText(t) && StopsAt(Float(t), CharAt(more, 0))
    ensures LexToken(t + more) == Some((Float(t), |t|))
  {
    NumberRunMore(t, more);
    CharMore(t, more, |t|);
    assert (t + more)[..|t|] == t;
  }

  // ----- String literals -----

  lemma LexStringLiteral(s: S.Str, more: string, printable: int -> bool)
    requires S.IsStr(s) && TextTable(printable) && StopsAt(StringLit(s), CharAt(more, 0))
    ensures var w := StringSpelling(s, printable);
      w != "" && IsQuote(w[0]) && LexToken(w + more) == Some((StringLit(s), |w|))
  {
    var literal := S.ReprLiteral(s, printable);
    ReprIsScalar(s, printable);
    CodesOfText(literal, more);
    S.ReprRoundTrip(s, printable, Codes(more));
    assert literal[0] == S.ReprQuote(s);
  }

  // ----- Operators -----

  lemma LexOther(t: Token, more: string)
    requires !IsWordLike(t) && !t.Number? && !t.Float? && !t.StringLit? && StopsAt(t, CharAt(more, 0))
    ensures LexToken(Mark(t) + more) == Some((t, |Mark(t)|))
  {
    var s := Mark(t) + more;
    assert forall i :: 0 <= i < |Mark(t)| ==> CharAt(s, i) == Mark(t)[i];
    assert CharAt(s, |Mark(t)|) == CharAt(more, 0);
  }
}
