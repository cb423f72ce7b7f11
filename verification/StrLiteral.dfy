/** The quote-choosing string-literal writer of `_ast_unparse.py`, and a reader of Python string literals that
    gives back exactly the string written. */
module StrLiteral {
  import opened Arithmetic
  import opened Basics

  /** A Python string is a sequence of code points. */
  type Str = seq<int>

  predicate IsCodePoint(c: int) {
    0 <= c <= 0x10ffff
  }

  predicate IsStr(s: Str) {
    forall i :: 0 <= i < |s| ==> IsCodePoint(s[i])
  }

  const TAB: int := 9
  const LF: int := 10
  const CR: int := 13
  const DOUBLE: int := 34
  const SINGLE: int := 39
  const BACKSLASH: int := 92

  // ----- Quotes -----

  const SINGLE_QUOTES: seq<Str> := [[SINGLE], [DOUBLE]]
  const MULTI_QUOTES: seq<Str> := [[DOUBLE, DOUBLE, DOUBLE], [SINGLE, SINGLE, SINGLE]]
  const ALL_QUOTES: seq<Str> := SINGLE_QUOTES + MULTI_QUOTES

  predicate IsQuote(q: Str) {
    q == [SINGLE] || q == [DOUBLE] || q == [SINGLE, SINGLE, SINGLE] || q == [DOUBLE, DOUBLE, DOUBLE]
  }

  predicate AreQuotes(qs: seq<Str>) {
    forall q :: q in qs ==> IsQuote(q)
  }

  // ----- Hexadecimal digits -----

  function HexDigit(d: int): int
    requires 0 <= d < 16
  {
    if d < 10 then 48 + d else 87 + d
  }

  function HexValue(c: int): Option<int> {
    if 48 <= c <= 57 then Some(c - 48)
    else if 97 <= c <= 102 then Some(c - 87)
    else if 65 <= c <= 70 then Some(c - 55)
    else None
  }

  function HexDigits(v: nat, k: nat): (r: Str)
    ensures |r| == k
  {
    if k == 0 then [] else HexDigits(v / 16, k - 1) + [HexDigit(v % 16)]
  }

  function HexNumber(t: Str): Option<int> {
    if t == [] then Some(0)
    else
      var high, low := HexNumber(t[..|t| - 1]), HexValue(t[|t| - 1]);
      if high.Some? && low.Some? then Some(16 * high.value + low.value) else None
  }

  lemma {:induction false} HexRoundTrip(v: nat, k: nat)
    requires v < Pow(16, k)
    ensures HexNumber(HexDigits(v, k)) == Some(v)
  {
    if k > 0 {
      HexRoundTrip(v / 16, k - 1);
      assert HexDigits(v, k)[..k - 1] == HexDigits(v / 16, k - 1);
    }
  }

  // ----- Writing -----

  /** `c.encode("unicode_escape")` */
  function UnicodeEscape(c: int): Str
    requires IsCodePoint(c)
  {
    if 32 <= c < 127 && c != BACKSLASH then [c]
    else if c == BACKSLASH then [BACKSLASH, BACKSLASH]
    else if c == TAB then [BACKSLASH, 116]
    else if c == LF then [BACKSLASH, 110]
    else if c == CR then [BACKSLASH, 114]
    else if c < 0x100 then [BACKSLASH, 120] + HexDigits(c, 2)
    else if c < 0x10000 then [BACKSLASH, 117] + HexDigits(c, 4)
    else [BACKSLASH, 85] + HexDigits(c, 8)
  }

  /** `str.isprintable` of one character is a table of the Unicode database; only this much of it matters. */
  ghost predicate PrintableTable(printable: int -> bool) {
    forall c :: printable(c) ==> c >= 32
  }

  /** The two ways of writing a character: that of the helper, and that of `repr` within the given quotes. */
  datatype Style = Helper(escapeSpace: bool) | Repr(quote: int)

  /** `escape_char`, `Lib/_ast_unparse.py:538-546`, and the characters of `repr` */
  function Piece(c: int, style: Style, printable: int -> bool): Str
    requires IsCodePoint(c)
  {
    match style
    case Helper(escapeSpace) =>
      if !escapeSpace && (c == LF || c == TAB) then [c]
      else if c == BACKSLASH || !printable(c) then UnicodeEscape(c)
      else [c]
    case Repr(quote) =>
      if c == quote || c == BACKSLASH then [BACKSLASH, c]
      else if c >= 127 && printable(c) then [c]
      else UnicodeEscape(c)
  }

  function Written(s: Str, style: Style, printable: int -> bool): Str
    requires IsStr(s)
  {
    if s == [] then [] else Piece(s[0], style, printable) + Written(s[1..], style, printable)
  }

  /** The quote that `repr` uses: the single one, unless the string has that and not the other. */
  function ReprQuote(s: Str): int {
    if SINGLE in s && DOUBLE !in s then DOUBLE else SINGLE
  }

  predicate StartsWith(t: Str, q: Str) {
    |t| >= |q| && t[..|q|] == q
  }

  /** `q in s` */
  predicate Occurs(q: Str, s: Str) {
    StartsWith(s, q) || (s != [] && Occurs(q, s[1..]))
  }

  /** `Lib/_ast_unparse.py:551` */
  function MultiOnly(qs: seq<Str>): (r: seq<Str>)
    ensures forall q :: q in r <==> q in qs && q in MULTI_QUOTES
  {
    if qs == [] then []
    else (if qs[0] in MULTI_QUOTES then [qs[0]] else []) + MultiOnly(qs[1..])
  }

  /** `Lib/_ast_unparse.py:552` */
  function NotOccurring(qs: seq<Str>, s: Str): (r: seq<Str>)
    ensures forall q :: q in r <==> q in qs && !Occurs(q, s)
  {
    if qs == [] then []
    else (if Occurs(qs[0], s) then [] else [qs[0]]) + NotOccurring(qs[1..], s)
  }

  function StartingWith(qs: seq<Str>, c: int, yes: bool): (r: seq<Str>)
    ensures forall q :: q in r <==> q in qs && ((q != [] && q[0] == c) == yes)
  {
    if qs == [] then []
    else (if (qs[0] != [] && qs[0][0] == c) == yes then [qs[0]] else []) + StartingWith(qs[1..], c, yes)
  }

  /** `Lib/_ast_unparse.py:562`: a stable sort that puts the quotes that the string does not end with first. */
  function SortedByEnd(qs: seq<Str>, last: int): (r: seq<Str>)
    ensures forall q :: q in r <==> q in qs
  {
    StartingWith(qs, last, false) + StartingWith(qs, last, true)
  }

  predicate NoneStartsWith(qs: seq<Str>, c: int) {
    forall q :: q in qs ==> q == [] || q[0] != c
  }

  /** The next() of `Lib/_ast_unparse.py:558` */
  function FirstWith(qs: seq<Str>, c: int): (q: Str)
    ensures if q in qs then q != [] && q[0] == c else q == [c] && NoneStartsWith(qs, c)
  {
    if qs == [] then [c]
    else if qs[0] != [] && qs[0][0] == c then qs[0]
    else FirstWith(qs[1..], c)
  }

  /** `Lib/_ast_unparse.py:549-552`: the quotes that can enclose the text as it stands. */
  function PossibleQuotes(quoteTypes: seq<Str>, escaped: Str): (r: seq<Str>)
    requires AreQuotes(quoteTypes)
    ensures forall q :: q in r <==> q in quoteTypes && !Occurs(q, escaped) && (LF in escaped ==> |q| == 3)
  {
    NotOccurring(if LF in escaped then MultiOnly(quoteTypes) else quoteTypes, escaped)
  }

  /** `Lib/_ast_unparse.py:560-567`: a final quote is escaped when every possible quote starts with it. */
  function WithFinalQuote(possible: seq<Str>, escaped: Str): (r: (Str, seq<Str>))
    requires escaped != [] && possible != [] && AreQuotes(possible)
    requires forall q :: q in possible ==> !Occurs(q, escaped)
    ensures r.1 != [] && r.1[0] in possible && forall q :: q in r.1 <==> q in possible
    ensures r.0 ==
      if r.1[0][0] == escaped[|escaped| - 1] then escaped[..|escaped| - 1] + [BACKSLASH, r.1[0][0]] else escaped
  {
    var last := escaped[|escaped| - 1];
    var sorted := SortedByEnd(possible, last);
    assert possible[0] in sorted && sorted[0] in possible;
    if sorted[0][0] == last then
      FinalQuoteIsTriple(sorted[0], escaped);
      assert |sorted[0]| == 3;
      (escaped[..|escaped| - 1] + [BACKSLASH, last], sorted)
    else
      (escaped, sorted)
  }

  /** `_str_literal_helper`: the text between the quotes, and the quotes that may be used. */
  function StrLiteralHelper(s: Str, quoteTypes: seq<Str>, printable: int -> bool, escapeSpace: bool)
    : (r: (Str, seq<Str>))
    requires IsStr(s) && AreQuotes(quoteTypes)
    ensures r.1 != [] && AreQuotes(r.1)
    ensures r.1[0] in quoteTypes || (r.1[0] != [] && NoneStartsWith(quoteTypes, r.1[0][0]))
  {
    var escaped := Written(s, Helper(escapeSpace), printable);
    var possible := PossibleQuotes(quoteTypes, escaped);
    if possible == [] then
      (Written(s, Repr(ReprQuote(s)), printable), [FirstWith(quoteTypes, ReprQuote(s))])
    else if escaped == [] then
      (escaped, possible)
    else
      WithFinalQuote(possible, escaped)
  }

  /** The assertion at `Lib/_ast_unparse.py:566`: a quote that starts with the last character and does not occur is
      not single. */
  lemma {:induction false} FinalQuoteIsTriple(q: Str, escaped: Str)
    requires IsQuote(q) && escaped != [] && q[0] == escaped[|escaped| - 1] && !Occurs(q, escaped)
    ensures |q| == 3
  {
    if |escaped| == 1 {
      assert escaped[..1] == [escaped[0]];
    } else {
      FinalQuoteIsTriple(q, escaped[1..]);
    }
  }

  /** `_write_str_avoiding_backslashes` */
  function Literal(s: Str, quoteTypes: seq<Str>, printable: int -> bool, escapeSpace: bool): Str
    requires IsStr(s) && AreQuotes(quoteTypes)
  {
    var (body, quotes) := StrLiteralHelper(s, quoteTypes, printable, escapeSpace);
    quotes[0] + body + quotes[0]
  }

  // ----- Reading -----

  /** One escape sequence after the backslash (section 2.4.1.1 of The Python Language Reference, without octal
      and named escapes): the characters it stands for and the number of characters it takes. */
  function ReadEscape(t: Str): Option<(Str, nat)> {
    if t == [] then None
    else if t[0] == LF then Some(([], 1))
    else if t[0] == BACKSLASH || t[0] == SINGLE || t[0] == DOUBLE then Some(([t[0]], 1))
    else if t[0] == 110 then Some(([LF], 1))
    else if t[0] == 116 then Some(([TAB], 1))
    else if t[0] == 114 then Some(([CR], 1))
    else if t[0] == 120 then ReadHex(t[1..], 2)
    else if t[0] == 117 then ReadHex(t[1..], 4)
    else if t[0] == 85 then ReadHex(t[1..], 8)
    else None
  }

  function ReadHex(t: Str, k: nat): Option<(Str, nat)> {
    if |t| < k then None
    else if HexNumber(t[..k]).Some? then Some(([HexNumber(t[..k]).value], k + 1))
    else None
  }

  /** The body of a literal up to its closing quote: the string and the text after the quote.  A raw line break
      ends a single-quoted literal, and the writer never emits a raw carriage return. */
  function ReadBody(t: Str, q: Str): Option<(Str, Str)>
    requires q != []
    decreases |t|
  {
    if StartsWith(t, q) then Some(([], t[|q|..]))
    else if t == [] || t[0] == CR || (t[0] == LF && |q| == 1) then None
    else if t[0] == BACKSLASH then
      var e := ReadEscape(t[1..]);
      if e.None? || |t| < 1 + e.value.1 then None else Prepend(e.value.0, ReadBody(t[1 + e.value.1..], q))
    else Prepend([t[0]], ReadBody(t[1..], q))
  }

  function Prepend(s: Str, r: Option<(Str, Str)>): Option<(Str, Str)> {
    match r
    case None => None
    case Some((s', rest)) => Some((s + s', rest))
  }

  /** A string literal at the start of t: three equal quotes open a triple-quoted one. */
  function ReadLiteral(t: Str): Option<(Str, Str)> {
    if t == [] || (t[0] != SINGLE && t[0] != DOUBLE) then None
    else if StartsWith(t, [t[0], t[0], t[0]]) then ReadBody(t[3..], [t[0], t[0], t[0]])
    else ReadBody(t[1..], [t[0]])
  }

  // ----- Reading what was written -----

  lemma ReadHexDigits(v: nat, k: nat, rest: Str)
    requires v < Pow(16, k)
    ensures ReadHex(HexDigits(v, k) + rest, k) == Some(([v], k + 1))
  {
    HexRoundTrip(v, k);
    assert (HexDigits(v, k) + rest)[..k] == HexDigits(v, k);
  }

  lemma Powers16()
    ensures Pow(16, 2) == 0x100 && Pow(16, 4) == 0x10000 && Pow(16, 8) == 0x100000000
  {
    assert Pow(16, 4) == 0x10000 && Pow(16, 6) == 0x1000000;
  }

  /** A piece of the text that reads as the one character c, whatever follows. */
  ghost predicate ReadsAs(piece: Str, c: int) {
    || (piece == [c] && c != BACKSLASH && c != CR)
    || (|piece| >= 2 && piece[0] == BACKSLASH && EscapeReads(piece[1..], c))
  }

  ghost predicate EscapeReads(t: Str, c: int) {
    forall rest :: ReadEscape(t + rest) == Some(([c], |t|))
  }

  lemma EscapeReadsAs(c: int)
    requires IsCodePoint(c)
    ensures ReadsAs(UnicodeEscape(c), c)
  {
    var piece := UnicodeEscape(c);
    if piece[0] == BACKSLASH {
      forall rest
        ensures ReadEscape(piece[1..] + rest) == Some(([c], |piece[1..]|))
      {
        EscapeRead(c, rest);
      }
    }
  }

  lemma EscapeRead(c: int, rest: Str)
    requires IsCodePoint(c) && UnicodeEscape(c)[0] == BACKSLASH
    ensures ReadEscape(UnicodeEscape(c)[1..] + rest) == Some(([c], |UnicodeEscape(c)| - 1))
  {
    var t := UnicodeEscape(c)[1..];
    if |t| > 1 {
      var k := if c < 0x100 then 2 else if c < 0x10000 then 4 else 8;
      Powers16();
      ReadHexDigits(c, k, rest);
      assert UnicodeEscape(c)[2..] == HexDigits(c, k);
      assert (t + rest)[1..] == HexDigits(c, k) + rest;
    }
  }

  /** Every written piece reads as its character, and only a raw quote ends in a quote. */
  lemma PieceReadsAs(c: int, style: Style, printable: int -> bool)
    requires IsCodePoint(c) && PrintableTable(printable)
    requires style.Repr? ==> style.quote == SINGLE || style.quote == DOUBLE
    ensures var piece := Piece(c, style, printable);
      && ReadsAs(piece, c) && piece != []
      && (style.Repr? ==> piece[0] != style.quote && LF !in piece)
      && (style.Helper? && (piece[|piece| - 1] == SINGLE || piece[|piece| - 1] == DOUBLE) ==> piece == [c])
  {
    EscapeReadsAs(c);
    EscapeEnds(c);
    if style.Repr? && (c == style.quote || c == BACKSLASH) {
      EscapedReadsAs(c);
    }
  }

  lemma EscapedReadsAs(c: int)
    requires c == SINGLE || c == DOUBLE || c == BACKSLASH
    ensures ReadsAs([BACKSLASH, c], c)
  {
    forall rest
      ensures ReadEscape([c] + rest) == Some(([c], 1))
    {
    }
    assert [BACKSLASH, c][1..] == [c];
  }

  lemma EscapeEnds(c: int)
    requires IsCodePoint(c)
    ensures var piece := UnicodeEscape(c);
      && piece != [] && LF !in piece && (piece[0] == BACKSLASH || piece == [c])
      && (piece[|piece| - 1] == SINGLE || piece[|piece| - 1] == DOUBLE ==> piece == [c])
  {
    HexHasNoQuotes(c, 2);
    HexHasNoQuotes(c, 4);
    HexHasNoQuotes(c, 8);
  }

  lemma {:induction false} HexHasNoQuotes(v: nat, k: nat)
    ensures forall i :: 0 <= i < k ==> HexDigits(v, k)[i] >= 48
  {
    if k > 0 {
      HexHasNoQuotes(v / 16, k - 1);
    }
  }

  lemma {:induction false} WrittenSplit(s: Str, k: nat, style: Style, printable: int -> bool)
    requires IsStr(s) && k <= |s|
    ensures Written(s, style, printable) == Written(s[..k], style, printable) + Written(s[k..], style, printable)
  {
    if k == 0 {
      assert s[..0] == [] && s[0..] == s;
    } else {
      WrittenSplit(s[1..], k - 1, style, printable);
      TailSlices(s, k);
      Associate(Piece(s[0], style, printable), Written(s[..k][1..], style, printable),
        Written(s[k..], style, printable));
    }
  }

  lemma TailSlices(s: Str, k: nat)
    requires 0 < k <= |s|
    ensures s[..k][1..] == s[1..][..k - 1] && s[1..][k - 1..] == s[k..] && s[..k][0] == s[0]
  {
  }

  /** No closing quote is found while characters of s are still to be read. */
  ghost predicate Quiet(s: Str, style: Style, printable: int -> bool, tail: Str, q: Str)
    requires IsStr(s)
  {
    forall k :: 0 <= k < |s| ==> !StartsWith(Written(s[k..], style, printable) + tail, q)
  }

  lemma QuietTail(s: Str, style: Style, printable: int -> bool, tail: Str, q: Str)
    requires IsStr(s) && s != [] && Quiet(s, style, printable, tail, q)
    ensures !StartsWith(Written(s, style, printable) + tail, q)
    ensures Quiet(s[1..], style, printable, tail, q)
  {
    assert s[0..] == s;
    var s' := s[1..];
    forall k | 0 <= k < |s'|
      ensures !StartsWith(Written(s'[k..], style, printable) + tail, q)
    {
      assert s'[k..] == s[k + 1..];
    }
  }

  lemma WrittenStep(s: Str, style: Style, printable: int -> bool, tail: Str)
    requires IsStr(s) && s != []
    ensures Written(s, style, printable) + tail
         == Piece(s[0], style, printable) + (Written(s[1..], style, printable) + tail)
  {
    Associate(Piece(s[0], style, printable), Written(s[1..], style, printable), tail);
  }

  /** Reading the written characters one after the other. */
  lemma {:induction false} ReadWritten(s: Str, style: Style, printable: int -> bool, tail: Str, q: Str, v: Str,
      rest: Str)
    requires IsStr(s) && q != [] && PrintableTable(printable)
    requires style.Repr? ==> style.quote == SINGLE || style.quote == DOUBLE
    requires Quiet(s, style, printable, tail, q)
    requires |q| == 1 ==> LF !in Written(s, style, printable)
    requires ReadBody(tail, q) == Some((v, rest))
    ensures ReadBody(Written(s, style, printable) + tail, q) == Some((s + v, rest))
  {
    if s == [] {
      assert [] + tail == tail && s + v == v;
    } else {
      var piece := Piece(s[0], style, printable);
      QuietTail(s, style, printable, tail, q);
      WrittenStep(s, style, printable, tail);
      PieceReadsAs(s[0], style, printable);
      assert |q| == 1 ==> piece != [LF] && LF !in Written(s[1..], style, printable);
      ReadWritten(s[1..], style, printable, tail, q, v, rest);
      ReadPiece(piece, s[0], Written(s[1..], style, printable) + tail, q);
      HeadAndTail(s, v);
    }
  }

  lemma HeadAndTail(s: Str, v: Str)
    requires s != []
    ensures [s[0]] + (s[1..] + v) == s + v
  {
  }

  lemma ReadPiece(piece: Str, c: int, more: Str, q: Str)
    requires q != [] && ReadsAs(piece, c) && !StartsWith(piece + more, q)
    requires piece == [LF] ==> |q| != 1
    ensures ReadBody(piece + more, q) == Prepend([c], ReadBody(more, q))
  {
    if piece == [c] && c != BACKSLASH {
      assert (piece + more)[1..] == more;
    } else {
      ReadEscapePiece(piece, c, more, q);
    }
  }

  lemma ReadEscapePiece(piece: Str, c: int, more: Str, q: Str)
    requires q != [] && !StartsWith(piece + more, q)
    requires |piece| >= 2 && piece[0] == BACKSLASH && EscapeReads(piece[1..], c)
    ensures ReadBody(piece + more, q) == Prepend([c], ReadBody(more, q))
  {
    var t := piece + more;
    assert t[1..] == piece[1..] + more;
    assert t[|piece|..] == more;
    assert ReadEscape(piece[1..] + more) == Some(([c], |piece| - 1));
  }

  // ----- No quote closes the literal early -----

  lemma OtherStart(t: Str, q: Str)
    requires t != [] && q != [] && t[0] != q[0]
    ensures !StartsWith(t, q)
  {
    if |t| >= |q| {
      assert t[..|q|][0] == t[0];
    }
  }

  /** A quote at the start of e + tail lies within e, or runs from the last character of e into the tail. */
  lemma QuoteAcross(e: Str, tail: Str, q: Str)
    requires IsQuote(q) && e != [] && StartsWith(e + tail, q)
    ensures Occurs(q, e) || (e[|e| - 1] == q[0] && tail != [] && tail[0] == q[0])
  {
    var t := e + tail;
    if |e| >= |q| {
      assert e[..|q|] == t[..|q|];
    } else {
      assert t[..|q|][|e| - 1] == e[|e| - 1];
      assert t[..|q|][|e|] == tail[0];
    }
  }

  lemma {:induction false} OccursInSuffix(q: Str, a: Str, b: Str)
    requires Occurs(q, b)
    ensures Occurs(q, a + b)
  {
    if a == [] {
      assert a + b == b;
    } else {
      OccursInSuffix(q, a[1..], b);
      assert (a + b)[1..] == a[1..] + b;
    }
  }

  lemma {:induction false} OccursInPrefix(q: Str, a: Str, b: Str)
    requires Occurs(q, a)
    ensures Occurs(q, a + b)
  {
    if StartsWith(a, q) {
      assert (a + b)[..|q|] == q;
    } else {
      OccursInPrefix(q, a[1..], b);
      assert (a + b)[1..] == a[1..] + b;
    }
  }

  lemma HelperIsQuiet(s: Str, escapeSpace: bool, printable: int -> bool, tail: Str, q: Str)
    requires IsStr(s) && IsQuote(q) && PrintableTable(printable)
    requires !Occurs(q, Written(s, Helper(escapeSpace), printable))
    requires s != [] ==> var e := Written(s, Helper(escapeSpace), printable);
      e != [] && (e[|e| - 1] != q[0] || (tail != [] && tail[0] != q[0]))
    ensures Quiet(s, Helper(escapeSpace), printable, tail, q)
  {
    var style := Helper(escapeSpace);
    var e := Written(s, style, printable);
    forall k | 0 <= k < |s|
      ensures !StartsWith(Written(s[k..], style, printable) + tail, q)
    {
      var e' := Written(s[k..], style, printable);
      WrittenSplit(s, k, style, printable);
      PieceReadsAs(s[k], style, printable);
      assert s[k..][0] == s[k];
      assert e' != [] && e[|e| - 1] == e'[|e'| - 1];
      if Occurs(q, e') {
        OccursInSuffix(q, Written(s[..k], style, printable), e');
      }
      if StartsWith(e' + tail, q) {
        QuoteAcross(e', tail, q);
        assert false;
      }
    }
  }

  lemma ReprIsQuiet(s: Str, quote: int, printable: int -> bool, tail: Str, q: Str)
    requires IsStr(s) && IsQuote(q) && q[0] == quote && PrintableTable(printable)
    ensures Quiet(s, Repr(quote), printable, tail, q)
  {
    forall k | 0 <= k < |s|
      ensures !StartsWith(Written(s[k..], Repr(quote), printable) + tail, q)
    {
      var piece := Piece(s[k], Repr(quote), printable);
      PieceReadsAs(s[k], Repr(quote), printable);
      var t := Written(s[k..], Repr(quote), printable) + tail;
      assert t[0] == piece[0];
      OtherStart(t, q);
    }
  }

  lemma {:induction false} ReprHasNoLineBreak(s: Str, quote: int, printable: int -> bool)
    requires IsStr(s) && PrintableTable(printable) && (quote == SINGLE || quote == DOUBLE)
    ensures LF !in Written(s, Repr(quote), printable)
  {
    if s != [] {
      PieceReadsAs(s[0], Repr(quote), printable);
      ReprHasNoLineBreak(s[1..], quote, printable);
    }
  }

  // ----- The round trip -----

  lemma ClosingQuote(q: Str, rest: Str)
    requires q != []
    ensures ReadBody(q + rest, q) == Some(([], rest))
  {
    assert (q + rest)[..|q|] == q && (q + rest)[|q|..] == rest;
  }

  /** The opening quote is recognised for what it is, so that reading the body is reading the literal. */
  lemma OpeningQuote(q: Str, body: Str, rest: Str)
    requires IsQuote(q) && (rest == [] || rest[0] != q[0])
    requires body == [] || !StartsWith(body + q + rest, q)
    ensures ReadLiteral(q + body + q + rest) == ReadBody(body + q + rest, q)
  {
    Associate4(q, body, q, rest);
    if |q| == 1 {
      NotDoubled(q, body, rest);
    }
    Opens(q, body + q + rest);
  }

  lemma Associate4(a: Str, b: Str, c: Str, d: Str)
    ensures a + b + c + d == a + (b + c + d)
  {
  }

  lemma NotDoubled(q: Str, body: Str, rest: Str)
    requires |q| == 1 && (rest == [] || rest[0] != q[0])
    requires body == [] || !StartsWith(body + q + rest, q)
    ensures var more := body + q + rest; |more| < 2 || more[0] != q[0] || more[1] != q[0]
  {
    var more := body + q + rest;
    if body == [] {
      assert more == q + rest;
    } else {
      assert more[..1] == [more[0]];
    }
  }

  lemma Opens(q: Str, more: Str)
    requires IsQuote(q)
    requires |q| == 1 ==> |more| < 2 || more[0] != q[0] || more[1] != q[0]
    ensures ReadLiteral(q + more) == ReadBody(more, q)
  {
    var t := q + more;
    assert t[|q|..] == more;
    if |q| == 3 {
      assert t[..3] == q;
    } else {
      NotTripled(q[0], more);
      assert q == [q[0]];
    }
  }

  lemma NotTripled(c: int, more: Str)
    requires |more| < 2 || more[0] != c || more[1] != c
    ensures !StartsWith([c] + more, [c, c, c])
  {
    if |more| >= 2 {
      var t := ([c] + more)[..3];
      assert t[1] == more[0] && t[2] == more[1];
    }
  }

  lemma BodyReads(s: Str, quoteTypes: seq<Str>, printable: int -> bool, escapeSpace: bool, rest: Str)
    requires IsStr(s) && AreQuotes(quoteTypes) && PrintableTable(printable)
    ensures var r := StrLiteralHelper(s, quoteTypes, printable, escapeSpace);
      var q := r.1[0];
      && ReadBody(r.0 + q + rest, q) == Some((s, rest))
      && (r.0 == [] || !StartsWith(r.0 + q + rest, q))
  {
    var escaped := Written(s, Helper(escapeSpace), printable);
    var (body, quotes) := StrLiteralHelper(s, quoteTypes, printable, escapeSpace);
    var q := quotes[0];
    Associate(body, q, rest);
    if PossibleQuotes(quoteTypes, escaped) == [] {
      ReprBodyReads(s, ReprQuote(s), printable, q, rest);
    } else {
      assert q in PossibleQuotes(quoteTypes, escaped);
      if escaped != [] && q[0] == escaped[|escaped| - 1] {
        FinalQuoteReads(s, escapeSpace, printable, q, rest);
      } else {
        PlainBodyReads(s, escapeSpace, printable, q, rest);
      }
    }
  }

  lemma ReprBodyReads(s: Str, quote: int, printable: int -> bool, q: Str, rest: Str)
    requires IsStr(s) && PrintableTable(printable) && IsQuote(q) && q[0] == quote
    ensures var body := Written(s, Repr(quote), printable);
      && ReadBody(body + (q + rest), q) == Some((s, rest))
      && (body == [] || !StartsWith(body + (q + rest), q))
  {
    ClosingQuote(q, rest);
    ReprIsQuiet(s, quote, printable, q + rest, q);
    ReprHasNoLineBreak(s, quote, printable);
    ReadWritten(s, Repr(quote), printable, q + rest, q, [], rest);
    assert s + [] == s && s[0..] == s;
  }

  lemma PlainBodyReads(s: Str, escapeSpace: bool, printable: int -> bool, q: Str, rest: Str)
    requires IsStr(s) && PrintableTable(printable) && IsQuote(q)
    requires var e := Written(s, Helper(escapeSpace), printable);
      !Occurs(q, e) && (LF in e ==> |q| == 3) && (e != [] ==> e[|e| - 1] != q[0])
    ensures var body := Written(s, Helper(escapeSpace), printable);
      && ReadBody(body + (q + rest), q) == Some((s, rest))
      && (body == [] || !StartsWith(body + (q + rest), q))
  {
    ClosingQuote(q, rest);
    if s != [] {
      PieceReadsAs(s[0], Helper(escapeSpace), printable);
    }
    HelperIsQuiet(s, escapeSpace, printable, q + rest, q);
    ReadWritten(s, Helper(escapeSpace), printable, q + rest, q, [], rest);
    assert s + [] == s && s[0..] == s;
  }

  /** A final quote written with a backslash before it. */
  lemma FinalQuoteReads(s: Str, escapeSpace: bool, printable: int -> bool, q: Str, rest: Str)
    requires IsStr(s) && PrintableTable(printable) && IsQuote(q)
    requires var e := Written(s, Helper(escapeSpace), printable);
      !Occurs(q, e) && (LF in e ==> |q| == 3) && e != [] && e[|e| - 1] == q[0]
    ensures var e := Written(s, Helper(escapeSpace), printable);
      var body := e[..|e| - 1] + [BACKSLASH, q[0]];
      ReadBody(body + (q + rest), q) == Some((s, rest)) && !StartsWith(body + (q + rest), q)
  {
    var style := Helper(escapeSpace);
    var n, c := |s| - 1, q[0];
    LastIsRaw(s, escapeSpace, printable, c);
    var t := s[..n];
    var e', tail := Written(t, style, printable), [BACKSLASH, c] + (q + rest);
    if Occurs(q, e') {
      OccursInPrefix(q, e', [c]);
    }
    EscapedQuoteTail(c, q, rest);
    if t != [] {
      PieceReadsAs(t[0], style, printable);
    }
    HelperIsQuiet(t, escapeSpace, printable, tail, q);
    ReadWritten(t, style, printable, tail, q, [c], rest);
    StartOfBody(t, style, printable, tail, q);
    Associate(e', [BACKSLASH, c], q + rest);
  }

  lemma StartOfBody(t: Str, style: Style, printable: int -> bool, tail: Str, q: Str)
    requires IsStr(t) && Quiet(t, style, printable, tail, q) && !StartsWith(tail, q)
    ensures !StartsWith(Written(t, style, printable) + tail, q)
  {
    assert t == [] ==> [] + tail == tail;
    assert t != [] ==> t[0..] == t;
  }

  /** A text that ends in a quote comes from a string that ends in it, written as it is. */
  lemma LastIsRaw(s: Str, escapeSpace: bool, printable: int -> bool, c: int)
    requires IsStr(s) && PrintableTable(printable) && (c == SINGLE || c == DOUBLE)
    requires var e := Written(s, Helper(escapeSpace), printable); e != [] && e[|e| - 1] == c
    ensures s != [] && s == s[..|s| - 1] + [c]
    ensures Written(s, Helper(escapeSpace), printable) == Written(s[..|s| - 1], Helper(escapeSpace), printable) + [c]
  {
    var style, n := Helper(escapeSpace), |s| - 1;
    WrittenSplit(s, n, style, printable);
    SplitLast(s);
    WrittenOne(s[n], style, printable);
    PieceReadsAs(s[n], style, printable);
  }

  lemma SplitLast(s: Str)
    requires s != []
    ensures s[|s| - 1..] == [s[|s| - 1]] && s == s[..|s| - 1] + [s[|s| - 1]]
  {
  }

  lemma WrittenOne(c: int, style: Style, printable: int -> bool)
    requires IsCodePoint(c)
    ensures Written([c], style, printable) == Piece(c, style, printable)
  {
    assert [c][1..] == [];
  }

  lemma EscapedQuoteTail(c: int, q: Str, rest: Str)
    requires IsQuote(q) && c == q[0]
    ensures var tail := [BACKSLASH, c] + (q + rest);
      ReadBody(tail, q) == Some(([c], rest)) && !StartsWith(tail, q)
  {
    var tail := [BACKSLASH, c] + (q + rest);
    OtherStart(tail, q);
    ClosingQuote(q, rest);
    EscapedReadsAs(c);
    ReadPiece([BACKSLASH, c], c, q + rest, q);
    assert [c] + [] == [c];
  }

  /** Reading a written literal gives back exactly the string, for every string, every choice of quotes and
      every table of printable characters, and leaves whatever follows. */
  lemma {:induction false} LiteralRoundTrip(s: Str, quoteTypes: seq<Str>, printable: int -> bool, escapeSpace: bool,
      rest: Str)
    requires IsStr(s) && AreQuotes(quoteTypes) && PrintableTable(printable)
    requires rest == [] || (rest[0] != SINGLE && rest[0] != DOUBLE)
    ensures ReadLiteral(Literal(s, quoteTypes, printable, escapeSpace) + rest) == Some((s, rest))
  {
    var (body, quotes) := StrLiteralHelper(s, quoteTypes, printable, escapeSpace);
    BodyReads(s, quoteTypes, printable, escapeSpace, rest);
    OpeningQuote(quotes[0], body, rest);
  }

  /** Docstrings, which offer triple quotes only, are always triple-quoted, also when `repr` takes over. */
  lemma DocstringsAreTripleQuoted(s: Str, printable: int -> bool, escapeSpace: bool)
    requires IsStr(s)
    ensures AreQuotes(MULTI_QUOTES)
    ensures |StrLiteralHelper(s, MULTI_QUOTES, printable, escapeSpace).1[0]| == 3
  {
    var q := StrLiteralHelper(s, MULTI_QUOTES, printable, escapeSpace).1[0];
    assert MULTI_QUOTES[0] == [DOUBLE, DOUBLE, DOUBLE] && MULTI_QUOTES[1] == [SINGLE, SINGLE, SINGLE];
    assert MULTI_QUOTES[0] in MULTI_QUOTES && MULTI_QUOTES[1] in MULTI_QUOTES;
    assert q in MULTI_QUOTES;
  }

  /** The same for `repr`, which the unparser writes for string constants. */
  function ReprLiteral(s: Str, printable: int -> bool): Str
    requires IsStr(s)
  {
    [ReprQuote(s)] + Written(s, Repr(ReprQuote(s)), printable) + [ReprQuote(s)]
  }

  lemma ReprRoundTrip(s: Str, printable: int -> bool, rest: Str)
    requires IsStr(s) && PrintableTable(printable)
    requires rest == [] || (rest[0] != SINGLE && rest[0] != DOUBLE)
    ensures ReadLiteral(ReprLiteral(s, printable) + rest) == Some((s, rest))
  {
    var q := [ReprQuote(s)];
    ReprBodyReads(s, ReprQuote(s), printable, q, rest);
    var body := Written(s, Repr(ReprQuote(s)), printable);
    assert body + q + rest == body + (q + rest);
    OpeningQuote(q, body, rest);
  }
}
