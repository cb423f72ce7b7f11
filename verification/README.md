# Verified models of big-integer arithmetic, unparsing, ABC caches, Android logging and set hashing

This project models parts of a CPython-derived repository in Dafny and proves what those parts are for. To check it,
run `dafny verify dfyconfig.toml`.

**Big integers** (`Lib/_pylong.py`). `Bits` gives Python's `&`, `|`, `^`, `~`, `<<` and `>>` on unbounded
integers by recursion on two's complement, and proves them equal to the powers, quotients and remainders that the
algorithms stand for. `Powers` is `compute_powers`: worklist, extra exponents, table. `Sizes` is the least set of
sizes that a halving recursion reaches and `Lookups` are the exponents it asks for; the method returns exactly
those keys. The base may be of any type with an associative multiplication, so the same method serves `int` and
`Decimal`. `Digits` is the in-place digit split and the join, `FastDivision` the Burnikel-Ziegler division,
`DecimalStrings` the conversions that go through exact integers. `ChoppedDecimals` models the `decimal` context as
reals with a function `Chop` that rounds toward zero to a number of significant digits; `ReciprocalDivision` and
`DecStrToInt` build the division by a truncated reciprocal on it, and the conversion that uses it. The cut-offs
(`_DIV_LIMIT`, `DIGLIM`, `BITLIM`, `BYTELIM`) are parameters.

The source comment at `Lib/_pylong.py:325-328` believes that the exact-division fallback cannot be reached when
`GUARD >= 3`. The model settles it. `DecStrToInt.Fallbacks` says how often the conversion of n to w bytes takes the
fallback, and `Converter.Inner` counts exactly that. At every cut-off, over all numerals and with the number of bytes
that the source sets aside for them (`GuardDigits.EstimatedBytes`), the fallback is unreachable if and only if
`GUARD >= 2` (`GuardDigits.FallbackUnreachable`). For `GUARD = 1` the numeral that reaches it is constructed for any
cut-off; at the cut-off 100000 of the source it passes the length test as well (`GuardDigits.FallbackAtTheCutOff`).
The results stay right for every positive `GUARD`.

`int_to_decimal_string` promises `str(n)`. For every n and every digit estimate w its result stands for n, with a
minus sign exactly when n is negative, where the value of a signed numeral is defined apart from `str`; and it is
`str(n)` if and only if n is not 0 or w is at most the cut-off (`DecimalStrings.IntToDecimalString`): for n = 0 and a
larger w the zeros are not stripped, by the test `and n` at line 217. The estimate that the code itself computes for 0
is 1, so that its own calls meet the condition.

**Unparsing** (`Lib/_ast_unparse.py`). `Expressions` has the trees, tokens and precedences and the specification
`Print` of what the visitor writes for a tree at a precedence. `Unparser` is the visitor as a class: a buffer and a
table of precedences that the `visit_*` methods write for their children, keyed by the place in the tree; each
method is proved to write `Print`, also when the visitor has visited other trees, or the same one, before.
`ExpressionParser` is a recursive-descent parser for the expressions of The Python Language Reference, chapter 6, with
all kinds of lambda parameters, and `ExpressionLexer` a lexer for their tokens, chapter 2: words, integers, other
numbers, string literals and operators. For every tree, lexing and parsing the characters that the visitor returns
gives back the tree; and for any tokens that parse, printing and parsing their tree gives the same tree
(`ParsedTrees`).

What is written is also no more than that takes. The parentheses around a whole expression are written if and only if
without them the tokens do not parse back (`Parentheses.WholeParentheses`). Those around an operand are written if and
only if without them the tokens of its node do not parse to the node (`MinimalParentheses.ParenthesesAreNeeded`), with
these exceptions, where the visitor writes parentheses that the grammar does not need: around a sign on the right of
`**`; around a value of a boolean operation after the first that is tighter than the operation but not as tight as
the precedence asked for; around the value of a named expression if that is no atom but could stand alone; and around
a named expression in a list, as a positional argument or as a subscript. An item of a tuple is judged with the tuple
itself bare. Nothing else can be saved either: of all tokens that parse to a tree at a precedence the printed ones are
the fewest, but for two for each of these parentheses and of those around named expressions in tuples
(`FewestTokens.PrintedIsShortest`), so that there is no needless comma. The spaces are those that a rule on the tokens alone calls for (`Spacing.SpacesFollowTokens`): one on
each side of what stands between two operands, after a comma, a colon, `not`, `in` and `lambda` where something
follows, before the point after an integer or a truth value, and nowhere else.

`StrLiteral` is the writer of string literals that avoids backslashes, with `repr` as its fallback, and a reader of
literals that undoes it for every string, every choice of quotes and every table of printable characters. Strings
there are sequences of code points, lone surrogates included. String constants inside expressions are written by
`repr` and read by the same reader. `AvoidedEscapes` says that escapes are avoided exactly when they can be, that none
is longer than another that would be read as the same character, and which of the quotes offered is used.

**Abstract base classes** (`Lib/_py_abc.py`). `AbcGraph` defines `Covers(g, c, d)`: class c reaches, through
registries and direct subclasses of ABCs, a class in the MRO of d. `AbcCache.Runtime` has the registries, caches and
the counter, with the methods that create, register and query; its invariant `Valid` says that every positive entry
is true, that every negative entry with the current version is, that a rank falls along every edge, which is why
queries end, and that the graph and the counter come from the history of the run. `AbcRuns` has these histories, of
classes created and entries added, and says what the cache token means over a whole run. `issubclass` is not
transitive: from a through b it is exactly when a covers the classes registered below b
(`AbcGraph.AnswersCombineExactly`), and a run ends in a graph where it is not. `register` refuses a class that covers
the registering one, unless it is a subclass already; queries would no longer end in exactly those of these cases
where it reaches an ABC in the MRO of the registering class (`AbcGraph.RefusalIsNeeded`). The documentation of
`get_cache_token` says that the token changes with every call to `register`; the code leaves it alone when the class
is a subclass already or the registration is refused, and the model follows the code.

**Android logging** (`Lib/_android_support.py`). `RateLimit.Logcat` is the token bucket, with the history of writes
as ghost state: tags, bytes handed to the log, times and levels. The bound is on the bytes of any consecutive block of
writes, 28 for each message and those of its tag and text; with a clock that goes backwards it is exceeded by at most
what the resets of the bucket give away (`RateLimit.AnyClockBound`). In the other direction, every level is what the
rate has allowed since some write that found the bucket full, reset or new, less the bytes written since, so that no
write is delayed without need (`RateLimit.LevelExplained`).

`LogStream.TextLogStream` is the line- and chunk-buffering stream. Its invariant says that the bytes sent and then the
bytes pending are the encoding of everything written, that every message sent is of one line and within the limit
unless it is a single chunk, and that every message was due: it is made of consecutive chunks and, without
write-through and an explicit flush, ends in a newline, or exceeds the limit, or would exceed it with the next chunk;
with write-through it is a single chunk. So, without write-through, text all of whose lines fit is sent as exactly one
message for each complete line, and the rest stays pending (`LogStream.TextLogStream.Write`).

**Set hashing** (`Lib/_collections_abc.py`). `SetHash` is `Set._hash` with its masks, against a fold of exclusive
ors, and `Set.__le__` and `Set.__eq__` over iteration orders. `HashMixing` shows that the mixing loses nothing: on
words of any size each step is injective, so that changing one element changes the hash, except for the two last words
that the replacement of -1 merges. `FrozensetHash` is the loop over a hash table in `Objects/setobject.c`, with its
corrections for unused and deleted entries, and is proved to give the hash of `Set._hash`, as the comment at line 666
promises; `HashValues` has two values at 64 bits.

## Model

| member | source | states |
|---|---|---|
| Bits.OrIsAdd | Lib/_pylong.py:449 | `hi << n` or-ed with a number below 2^n is their sum |
| Bits.MaskIsMod | Lib/_pylong.py:443-444 | masking with 2^n - 1 is the remainder by 2^n, for negative numbers too |
| Bits.XorClearsHigh | Lib/_pylong.py:487 | exclusive or with the shifted upper part leaves the lower part |
| Bits.XorAssociates | Lib/_collections_abc.py:675 | exclusive or of unbounded integers of either sign is associative |
| Powers.SizesIsClosed | Lib/_pylong.py:61-73 | the sizes of the recursion contain both halves of each of them that exceed the limit |
| Powers.SizesIsLeast | Lib/_pylong.py:61-73 | every closed set that contains the first size contains them all: the recursion reaches no more |
| Powers.ServesHalves | Lib/_pylong.py:157-163 | a table with the right keys serves one step of a halving recursion and both recursive calls, so no lookup fails on the way down |
| Powers.SizesInLevels | Lib/_pylong.py:85-87 | the worklist sees only floor(w/2^i) and the number above it |
| Powers.LookupsAreNeeded | Lib/_pylong.py:58-73 | a halving recursion finds all its keys in a set of exponents if and only if the set contains the looked-up ones: none of them is superfluous |
| Powers.LevelIsFloor | Lib/_pylong.py:66 | halving i times is the floor of w/2^i |
| Powers.SizesAreFew | Lib/_pylong.py:85-87 | the worklist handles at most two sizes for each bit of w |
| Powers.FindNeeded | Lib/_pylong.py:58-73 | the worklist loop, whichever element it pops, collects exactly the exponents that are looked up |
| Powers.AddExtras | Lib/_pylong.py:88-97 | with the extra exponents each one is one step from a smaller one or its half is within the limit; there are none unless the ceiling is wanted, as line 97 asserts |
| Powers.NextPower | Lib/_pylong.py:101-121 | each power is right, and `base ** n` is used only when half of n is within the limit |
| Powers.BuildPowers | Lib/_pylong.py:99-124 | the table has a right power for each exponent, each explained by one of the four steps |
| Powers.ComputePowers | Lib/_pylong.py:57-131 | the keys are exactly the exponents the recursion looks up, for both settings of `need_hi`; the values are the powers; every power came from a smaller key in one step unless half of it is within the limit |
| Digits.CanonicalUnique | Lib/_pylong.py:465-477 | digit lists without a leading zero digit and with the same value are the same |
| Digits.Fill | Lib/_pylong.py:480-489 | the recursion fills its range with the digits of x, leaves the rest alone and writes each slot exactly once, in order |
| Digits.Int2Digits | Lib/_pylong.py:465-493 | the list has the value a, digits below 2^n, a top digit that is not zero and ceil(bits/n) members; none for 0 |
| Digits.Digits2Int | Lib/_pylong.py:496-508 | the number that the digits stand for in base 2^n |
| Digits.SplitThenJoin | Lib/_pylong.py:496-498 | joining the digits of a gives a |
| Digits.JoinThenSplit | Lib/_pylong.py:496-498 | splitting a joined canonical list gives the list |
| FastDivision.FloorDivisionIsFloor | Lib/_pylong.py:528-541 | a = b*q + r with r zero or of the sign of b and \|r\| < \|b\| means that q is the floor of the real quotient |
| FastDivision.EstimateIsClose | Lib/_pylong.py:454-458 | the first estimate of a quotient digit, also the saturated one, leaves a remainder of at least -2b and below b |
| FastDivision.Div2n1n | Lib/_pylong.py:422-449 | a = b*q + r, 0 <= r < b and q < 2^n for exact n-bit b and a < 2^n * b, through padding and recursion, for every cut-off |
| FastDivision.Div3n2n | Lib/_pylong.py:452-462 | the same for three halves by two, with at most two corrections |
| FastDivision.DivmodPos | Lib/_pylong.py:511-525 | quotient and remainder of a non-negative by a positive integer |
| FastDivision.IntDivmod | Lib/_pylong.py:528-541 | floor division for all a and b of either sign, and ZeroDivisionError exactly for b = 0 |
| DecimalStrings.StrIsNumeral | Lib/_pylong.py:195 | `str(n)` has digits only, no leading zero and the value n |
| DecimalStrings.NumeralUnique | Lib/_pylong.py:217-221 | a numeral without superfluous zeros is `str` of its value |
| DecimalStrings.SignedNumeralUnique | Lib/_pylong.py:211-221 | a signed numeral is `str` of its value, which is negative exactly if it starts with a minus sign |
| DecimalStrings.ToDigits | Lib/_pylong.py:193-198 | the recursion represents n, with every power in the table and every low part within the width it is padded to |
| DecimalStrings.JoinDecimal | Lib/_pylong.py:196-198 | a low part fits in the w2 characters it is padded to, so that the two parts written one after the other represent n |
| DecimalStrings.PowersOfTen | Lib/_pylong.py:208-210 | the shifted powers of five are the powers of ten that the recursion looks up |
| DecimalStrings.IntToDecimalString | Lib/_pylong.py:192-221 | for every estimate, too large or too small, the digits after exactly one minus sign if n < 0, and none otherwise, have the value \|n\|; the result is a signed numeral without superfluous zeros, and is `str(n)`, if and only if n is not 0 or the estimate is within the cut-off |
| DecimalStrings.ToDecimal | Lib/_pylong.py:157-163 | the binary recursion adds up to exactly n |
| DecimalStrings.IntToDecimal | Lib/_pylong.py:139-176 | the decimal equals n, for either sign |
| DecimalStrings.FromDigits | Lib/_pylong.py:238-244 | the recursion gives the value of its slice; every `w5pow` lookup finds its key although the midpoint is a ceiling and the table is made for floors |
| DecimalStrings.StrToInt | Lib/_pylong.py:223-247 | the value of the digit string |
| DecimalStrings.PrintThenRead | Lib/_pylong.py:193-247 | for every integer, negative ones included, reading what was printed gives the number back |
| DecimalStrings.ReadThenPrint | Lib/_pylong.py:193-247 | printing what was read gives the signed numeral back, for "0" exactly when the estimate is within the cut-off |
| ChoppedDecimals.ChopError | Lib/_pylong.py:373-374 | rounding toward zero to prec digits loses less than one unit of the last digit kept |
| ReciprocalDivision.EstimateIsLow | Lib/_pylong.py:313-315 | for every precision the chopped product is a lower bound of the true quotient |
| ReciprocalDivision.ReciprocalError | Lib/_pylong.py:375-383 | the stored reciprocal, chopped again, is within two units of the working precision |
| ReciprocalDivision.FourChops | Lib/_pylong.py:607-701 | the error after all four chops is at most four units in the last place of the working precision |
| ReciprocalDivision.SetupSuffices | Lib/_pylong.py:375-383 | the precision at setup is at least every working precision, because the lower part has the larger half of the bytes |
| ReciprocalDivision.EstimateWithinHalf | Lib/_pylong.py:303-313 | with two guard digits the estimate is less than one half below the true quotient |
| ReciprocalDivision.OneGuardDigitFails | Lib/_pylong.py:325-328 | with one guard digit the estimate for 64 * p divided by p is below 63 whenever p is 1.0531 to 1.0623 times a power of ten |
| DecStrToInt.BytesRoundTrip | Lib/_pylong.py:291 | the w big-endian bytes of n < 256^w read back as n |
| DecStrToInt.BytesSplit | Lib/_pylong.py:336-338 | the bytes of a number are those of its high part and then those of its low part |
| DecStrToInt.NoPowerOf256IsDecimal | Lib/_pylong.py:607-701 | no positive power of 256 is a power of ten, which the magnitude of the reciprocal needs |
| DecStrToInt.Converter.Divide | Lib/_pylong.py:303-332 | for every positive guard the fix-up gives exactly divmod, and the fallback is counted exactly when the estimate is too low by two or more |
| DecStrToInt.FixUp | Lib/_pylong.py:312-332 | from any lower bound of the quotient, exact quotient and remainder; the fallback is counted if and only if the bound is too low by two or more |
| DecStrToInt.Converter.Inner | Lib/_pylong.py:283-338 | exactly the w bytes of n are appended, the conversion overflows if and only if n >= 256^w, and the fallbacks counted are exactly those that the sizes and the guard imply |
| DecStrToInt.NoFallbacks | Lib/_pylong.py:325-328 | with two guard digits no number that fits falls back, at any cut-off and any size |
| GuardDigits.EstimateSuffices | Lib/_pylong.py:340-356 | the number of bytes set aside for L digits holds every numeral of L digits |
| GuardDigits.OneGuardDigitFallsBack | Lib/_pylong.py:283-331 | for every cut-off there is a numeral, with the number of bytes that is set aside for it, whose conversion falls back with one guard digit |
| GuardDigits.FallbackUnreachable | Lib/_pylong.py:325-331 | at every cut-off, no numeral reaches the fallback if and only if GUARD >= 2 |
| GuardDigits.FallbackAtTheCutOff | Lib/_pylong.py:275-286 | at the cut-off 100000 such a numeral exists and is not too long to be converted |
| DecStrToInt.Table | Lib/_pylong.py:366-383 | the table has the keys that are looked up, each with its power and its chopped reciprocal |
| DecStrToInt.DecStrToInt | Lib/_pylong.py:340-387 | ValueError if w has 46 bits or more, otherwise int(s) if int(s) < 256^w and OverflowError if not; and how often the fallback was taken |
| ParsedTrees.ParsePrintParse | Lib/_ast_unparse.py:189-191 | for any tokens that parse at a precedence: the tree is well-formed, and its printed tokens parse to the same tree |
| ExpressionRoundTrip.Starts | Lib/_ast_unparse.py:809-827 | what is parsed at a level starts with a token of that level or a tighter one |
| ExpressionRoundTrip.PrintParses | Lib/_ast_unparse.py:147-156 | what is printed at precedence q is parsed at every level p <= q, before anything that does not continue it |
| ExpressionRoundTrip.LeftParses | Lib/_ast_unparse.py:862-877 | a left operand of its own level comes back as the left operand |
| ExpressionRoundTrip.PowerParses | Lib/_ast_unparse.py:862-877 | the right-associative operator, with signs allowed on its right |
| ExpressionRoundTrip.ValuesParse | Lib/_ast_unparse.py:900-915 | the values of a boolean operation, printed at rising precedences, come back as one flat list |
| ExpressionRoundTrip.LinksParse | Lib/_ast_unparse.py:892-898 | comparison chains, with the operators of two words |
| ExpressionRoundTrip.ParamsParse | Lib/_ast_unparse.py:993-1042 | the printed parameters of a lambda come back one by one, with their kinds and defaults and no comma missing or too many |
| ExpressionRoundTrip.ItemsAssemble | Lib/_ast_unparse.py:993-1042 | from that list the groups are found again: positional-only, positional, starred, keyword-only and double-starred |
| ExpressionRoundTrip.PrimaryParses | Lib/_ast_unparse.py:917-960 | attributes, calls and subscripts of anything, whatever follows |
| ExpressionRoundTrip.ArgsParse | Lib/_ast_unparse.py:928-944 | positional arguments and keywords come back in order |
| ExpressionRoundTrip.ItemsParse | Lib/_ast_unparse.py:74-82 | tuples without parentheses, with the comma of a single item |
| ExpressionRoundTrip.InsideParses | Lib/_ast_unparse.py:946-960 | between brackets tuples and named expressions need no parentheses |
| ExpressionRoundTrip.RoundTrip | Lib/_ast_unparse.py:189-194 | parsing the printed tokens gives back the tree, for every expression of the model and every precedence |
| ExpressionRoundTrip.PrintIsInjective | Lib/_ast_unparse.py:189-194 | different trees are never written alike |
| ExpressionLexer.LexOther | Lib/_ast_unparse.py:809-898 | an operator is read as itself before any character that does not extend it |
| ExpressionLexer.LexFloat | Lib/_ast_unparse.py:692-700 | a number with a fraction, an exponent or an imaginary suffix is read whole before anything that is no letter or digit |
| ExpressionLexer.LexStringLiteral | Lib/_ast_unparse.py:701-702 | what `repr` writes for a string is read as one token with that string, whatever follows but a quote |
| PrintedText.LexText | Lib/_ast_unparse.py:189-194 | pieces that are kept apart lex back to their tokens |
| PrintedText.PrintIsFine | Lib/_ast_unparse.py:809-926 | the printer keeps apart all tokens that would run into one |
| PrintedText.EndsInNumber | Lib/_ast_unparse.py:917-926 | only an integer constant needs the space before the point, and it gets it |
| PrintedText.PointAfterNumber | Lib/_ast_unparse.py:920-924 | without that space an integer followed by a point is read as another number or not at all |
| PrintedText.ParamsAreListed | Lib/_ast_unparse.py:993-1042 | the parameters of a lambda are kept apart from each other and from the keyword and colon around them |
| PrintedText.TextRoundTrip | Lib/_ast_unparse.py:189-194 | lexing and parsing the printed characters gives back the tree, string constants and other numbers included, for every table of printable characters |
| Parentheses.ParsedFits | Lib/_ast_unparse.py:147-152 | whatever is parsed at a level is of that level or a tighter one, or the tokens start with it in parentheses |
| Parentheses.WholeParentheses | Lib/_ast_unparse.py:147-152 | an expression is written without parentheses at a precedence if and only if its tokens without them parse to it there |
| OperandParentheses.WrittenBare | Lib/_ast_unparse.py:760-960 | an operand is written bare exactly where the rule of the grammar at its place takes it and it is none of the listed exceptions, which the grammar would take too |
| MinimalParentheses.BareOperand | Lib/_ast_unparse.py:760-1061 | with operand i bare the tokens of a node parse to the node if and only if the rule of the grammar at that place takes the operand |
| MinimalParentheses.ParenthesesAreNeeded | Lib/_ast_unparse.py:147-156 | for every operand of every node: it is in parentheses if and only if without them the tokens of the node do not parse to it at its level, or it is one of the listed exceptions, where they would |
| LeastTokens.ParseTakes | Lib/_ast_unparse.py:760-1061 | whatever is parsed as an expression at a level takes at least as many tokens as its operands need, its own tokens without a last comma, and two for parentheses if it is too loose for the level |
| FewestTokens.BodyLength | Lib/_ast_unparse.py:760-1061 | what is written for a node without its own parentheses has that least number of tokens, and two more for each parenthesis in it that could be spared |
| FewestTokens.PrintedIsShortest | Lib/_ast_unparse.py:147-156 | of all tokens that parse to an expression at a precedence the printed ones are the fewest, but for two for each of the listed parentheses in the tree |
| Spacing.EndsLikeInteger | Lib/_ast_unparse.py:917-926 | the space before a point is written exactly where the operand ends with an integer or a truth value |
| Spacing.SpacesFollowTokens | Lib/_ast_unparse.py:809-1061 | the text of a printed expression is its tokens with the spaces that a rule on neighbouring tokens calls for, and no others |
| Unparser.Unparser.SetPrecedence | Lib/_ast_unparse.py:154-156 | the entry of one child is written, all others stay |
| Unparser.Unparser.Traverse | Lib/_ast_unparse.py:179-184 | appends what is printed at the precedence in the table, and adds entries only below the node |
| Unparser.Unparser.VisitUnaryOp | Lib/_ast_unparse.py:817-827 | with its operands at the precedences that their sides need, the node is written as `Print` says at the precedence its parent set, and no entry outside the subtree changes |
| Unparser.Unparser.VisitBinOp | Lib/_ast_unparse.py:862-877 | with its operands at the precedences that their sides need, the node is written as `Print` says at the precedence its parent set, and no entry outside the subtree changes |
| Unparser.Unparser.VisitCompare | Lib/_ast_unparse.py:892-898 | all operands get their precedence first and the chain is written as `Print` says, with no entry outside the subtree changed |
| Unparser.Unparser.VisitBoolOp | Lib/_ast_unparse.py:903-915 | written as `Print` says: each value is asked for at a higher precedence than the one before, until the highest |
| Unparser.Unparser.VisitIfExp | Lib/_ast_unparse.py:760-768 | written as `Print` says: body and test above the level of conditionals, the alternative at it |
| Unparser.Unparser.VisitLambda | Lib/_ast_unparse.py:1052-1061 | written as `Print` says, with the parameters of every kind through a buffer of their own |
| Unparser.Unparser.VisitArguments | Lib/_ast_unparse.py:993-1042 | the two loops and the marks between them, with one flag for the first comma, write the parameters as `PrintParams` says |
| Unparser.Unparser.VisitAttribute | Lib/_ast_unparse.py:917-926 | written as `Print` says, with a space after an integer or a truth value |
| Unparser.Unparser.VisitCall | Lib/_ast_unparse.py:928-944 | written as `Print` says: both loops share one comma flag, and no comma is missing or too many |
| Unparser.Unparser.VisitKeyword | Lib/_ast_unparse.py:1044-1050 | a name or two stars and the value, whose precedence is the default |
| Unparser.Unparser.VisitSubscript | Lib/_ast_unparse.py:946-960 | written as `Print` says, without parentheses around a tuple that is not empty |
| Unparser.Unparser.VisitTuple | Lib/_ast_unparse.py:801-807 | written as `Print` says, with parentheses if empty or asked for above the tuple level |
| Unparser.Unparser.VisitList | Lib/_ast_unparse.py:716-718 | written as `Print` says, every item at the default precedence |
| Unparser.Unparser.VisitNamedExpr | Lib/_ast_unparse.py:234-239 | written as `Print` says, with the value as an atom |
| Unparser.Unparser.ItemsView | Lib/_ast_unparse.py:74-82 | appends the items with commas between them, and one after a single item |
| Unparser.Unparser.Interleave | Lib/_ast_unparse.py:62-72 | appends the items with commas between them |
| Unparser.Unparser.Visit | Lib/_ast_unparse.py:189-194 | any visit, the first or a later one: the text that is returned lexes and parses, at the precedence set for the tree, to the tree that was visited |
| StrLiteral.FinalQuoteIsTriple | Lib/_ast_unparse.py:566 | the assertion: a quote that starts with the last character and does not occur is a triple one |
| StrLiteral.StrLiteralHelper | Lib/_ast_unparse.py:532-568 | there is a quote to use; it is one of those offered, or none of those starts with the quote that `repr` uses |
| StrLiteral.LiteralRoundTrip | Lib/_ast_unparse.py:532-574 | reading the written literal gives exactly the string and leaves what follows |
| StrLiteral.DocstringsAreTripleQuoted | Lib/_ast_unparse.py:686-690 | docstrings are triple-quoted, also when `repr` takes over |
| AvoidedEscapes.EscapesAreAvoided | Lib/_ast_unparse.py:532-568 | the string is written as it stands, in a quote that is offered, if and only if it has no backslash and no other character to escape and one of the quotes offered can enclose it |
| AvoidedEscapes.FirstQuoteIsUsed | Lib/_ast_unparse.py:548-568 | the first quote offered that can enclose the escaped text; if none can, the first that can with its final quote escaped; otherwise the first of the kind that `repr` uses |
| AvoidedEscapes.EscapesAreShortest | Lib/_ast_unparse.py:538-546 | what is written for a character is no longer than any escape sequence that is read as it |
| AvoidedEscapes.ReprAvoidsEscapes | Lib/_ast_unparse.py:553-559 | `repr` escapes nothing if and only if the string does not have both quotes and all other characters are plain |
| StrLiteral.ReprRoundTrip | Lib/_ast_unparse.py:553-559 | the literal that `repr` writes reads back as the string |
| AbcGraph.CoversUnfolds | Lib/_py_abc.py:131-144 | the MRO test and the two loops decide reachability |
| AbcGraph.CoversGrows | Lib/_py_abc.py:132-143 | a positive answer stays true in every later graph |
| AbcGraph.RegisterEffect | Lib/_py_abc.py:68-70 | exactly what a registration changes |
| AbcGraph.RegisterKeepsAcyclic | Lib/_py_abc.py:63-67 | the search still ends after a registration if and only if the registered class does not reach the registering one |
| AbcGraph.RefusalIsNeeded | Lib/_py_abc.py:63-67 | of the registrations that are refused, those and only those would make the search endless where the registered class reaches an ABC in the MRO of the registering one |
| AbcGraph.CreateEffect | Lib/_py_abc.py:35-52 | exactly what a new class changes: nothing between old classes |
| AbcGraph.CreateKeepsRanks | Lib/_py_abc.py:140-144 | a new class keeps a rank that falls along every edge |
| AbcGraph.DescendantsOfRegistered | Lib/_py_abc.py:14-25 | a registered class and its descendants come under the class that registers it and its ABC bases |
| AbcGraph.AnswersCombineExactly | Lib/_py_abc.py:131-144 | given that a covers b, a covers everything that b covers if and only if it covers every class registered below b |
| AbcGraph.TransitiveThroughAbcs | Lib/_py_abc.py:135-144 | so it is in particular when the first answer goes through an ABC |
| AbcRuns.RunIsSound | Lib/_py_abc.py:35-70 | after any run of creations and registrations the graph is well-formed and the search ends |
| AbcRuns.SameTokenSameAnswers | Lib/_py_abc.py:4-11 | equal tokens at two points of a run: no answer about the classes of the first point has changed |
| AbcRuns.OtherTokenOtherAnswers | Lib/_py_abc.py:4-11 | different tokens with no new class in between: some answer has changed |
| AbcRuns.OrdinaryClassBreaksTransitivity | Lib/_py_abc.py:135-144 | a run after which two answers do not combine through an ordinary class |
| AbcRuns.NeedlessRefusal | Lib/_py_abc.py:63-67 | a run after which a registration is refused although the search would still end |
| AbcCache.CreateKeepsCaches | Lib/_py_abc.py:47-51 | no cached answer becomes false, so the counter may stay |
| AbcCache.RegisterKeepsCaches | Lib/_py_abc.py:68-70 | with the counter raised, all cached answers that still count are true |
| AbcCache.Runtime.NewClass | Lib/_py_abc.py:35-52 | the new graph, the invariant, entries kept |
| AbcCache.Runtime.Register | Lib/_py_abc.py:54-70 | the exact outcome, TypeError and RuntimeError included, the exact new graph, counter and history, and no positive entry lost |
| AbcCache.Runtime.SubclassCheck | Lib/_py_abc.py:108-147 | the answer is uncached reachability, and it is cached; an answer that was cached and still counts is given without changing any cache; the call ends in every valid state |
| AbcCache.Runtime.InstanceCheck | Lib/_py_abc.py:92-106 | reachability for the class of the instance or its type |
| AbcCache.Runtime.GetCacheToken | Lib/_py_abc.py:4-11 | a token that was the same at an earlier point of the run means that every answer about the classes of that point stands; a different one, without a new class, that some answer changed |
| RateLimit.NullsRoundTrip | Lib/_android_support.py:167-169 | null bytes are encoded reversibly in messages without the byte 0xc0 |
| RateLimit.NoNullsNoEscape | Lib/_android_support.py:167-169 | a message without null bytes is handed on as it is |
| RateLimit.Logcat.Write | Lib/_android_support.py:166-185 | tag, bytes, times and level are recorded in the history; the delay is zero if the level is not negative, and otherwise the time in which the rate makes up for it |
| RateLimit.ResetIsIdle | Lib/_android_support.py:176-178 | the reset to zero changes nothing if and only if the clock has come far enough, which after an overdraft is the sleep that was asked for |
| RateLimit.AnyClockBound | Lib/_android_support.py:173-183 | whatever the clock does, the bytes of a block of consecutive writes, 28 for each and those of tag and text, are at most 131072, 1048576 for each second to the end of its last sleep, and what the resets within the block gave away |
| RateLimit.RateBound | Lib/_android_support.py:142-185 | the bytes of a block within which the bucket recovers are at most 131072 plus 1048576 for each second from the first reading of the clock to the last emission |
| RateLimit.LevelExplained | Lib/_android_support.py:173-183 | the level after a write is exactly what the rate has allowed since the start, or since a write that found the bucket full or reset, less the bytes since: no write is delayed without need |
| RateLimit.TimelyRecovers | Lib/_android_support.py:176-178 | with a clock that does not go backwards and sleeps as long as asked the bucket always recovers |
| RateLimit.BackwardClockBreaksBound | Lib/_android_support.py:176-178 | without the condition on the clock the bound fails |
| LogStream.LinesOfText | Lib/_android_support.py:68-72 | the lines joined are the text, each with at most one line feed, at its end |
| LogStream.ChunkedUnique | Lib/_android_support.py:72-76 | a text has one division into chunks: as much of a line as is left, up to 1000 characters |
| LogStream.ChunkAdded | Lib/_android_support.py:82-94 | a chunk added after the flush test keeps messages within the limit unless alone, and of one line |
| LogStream.ChunkIsSound | Lib/_android_support.py:82-94 | a chunk keeps the invariant: bytes conserved, messages within the limit and of one line, and every message due |
| LogStream.TextLogStream.WriteChunk | Lib/_android_support.py:82-94 | keeps the invariant; without write-through a chunk that fits and ends no line changes nothing but the pending bytes, which grow by it, and one that ends a line is sent at once together with them |
| LogStream.TextLogStream.Flush | Lib/_android_support.py:96-100 | one message with all pending bytes is sent, none if there are none |
| LogStream.ChunksSendLines | Lib/_android_support.py:68-94 | chunk by chunk, if all lines fit, what is sent is exactly the complete lines, and what is pending the rest |
| LogStream.TextLogStream.Write | Lib/_android_support.py:59-78 | all of the text is written, in its only division into chunks; nothing stays pending after a final line feed; without write-through, if all lines fit, exactly the complete lines are sent, one message each, and the rest stays pending |
| LogStream.NarrowMessagesFit | Lib/_android_support.py:84-94 | no message exceeds the limit if no character takes more than four bytes |
| SetHash.Hash | Lib/_collections_abc.py:653-684 | the loop, which masks after every step, computes the fold of masked terms |
| HashMixing.TermInjective | Lib/_collections_abc.py:675 | two elements contribute the same if and only if their hashes are the same word |
| HashMixing.LastWordInjective | Lib/_collections_abc.py:677-679 | the steps after the loop merge no two words |
| HashMixing.SameHash | Lib/_collections_abc.py:668-684 | two sets of one size hash alike if and only if their terms have the same exclusive or, or their last words are the two that the replacement of -1 merges |
| HashMixing.ChangedElement | Lib/_collections_abc.py:668-684 | changing one element changes the hash, unless the new element hash is the same word or the last words are that pair |
| HashMixing.OneElement | Lib/_collections_abc.py:668-684 | so two sets of one element hash alike only then |
| HashValues.KnownHash | Lib/_collections_abc.py:653-684 | at 64 bits the hash of the empty set is 133146708735736, and that of a set of one element with hash 1 is -558064481276695278 |
| FrozensetHash.FrozensetHash | Objects/setobject.c:766-806 | for every table, with any numbers of unused and deleted entries, the loop over it gives the hash that `Set._hash` computes from the elements |
| SetHash.MaskedXor | Lib/_collections_abc.py:675-676 | masking after each step is the same as masking each term |
| SetHash.HashInRange | Lib/_collections_abc.py:668-684 | the result is within -MAX-1 and MAX and never -1 |
| SetHash.XorTakesFirst | Lib/_collections_abc.py:673-676 | any element may be taken first, although the terms are unbounded and may be negative before masking |
| SetHash.OrderDoesNotMatter | Lib/_collections_abc.py:662-666 | the hash is the same for every iteration order of the same element hashes |
| SetHash.LessEqual | Lib/_collections_abc.py:562-570 | inclusion of the elements and of the sizes |
| SetHash.Equal | Lib/_collections_abc.py:592-595 | equal sizes and inclusion |
| SetHash.EqualityIsSymmetric | Lib/_collections_abc.py:592-595 | the one-sided test is symmetric |
| SetHash.HashCompatibleWithEquality | Lib/_collections_abc.py:660-666 | equal sets with agreeing element hashes have equal hashes, in every iteration order |

## Left out

- The floating-point estimates of digit and byte counts (`Lib/_pylong.py:207`, `353-356`): w is an input, and each
  result says for which w it holds. `GuardDigits.EstimatedBytes` is the second of them with an exact logarithm.
- Underscores, white space and signs in `int_from_string` and `str_to_int`, the printing option of
  `compute_powers`, and the choice between the conversions by size.
- The inside of the `decimal` module: values are reals, chopping is exact, exponents are unbounded. `D(str)`,
  `int(str(D))` and `to_integral_value` are exact operations.
- Running times, except for the number of exponents in `compute_powers`.
- Unparsing of statements, patterns, formatted strings, type parameters, comprehensions, dictionaries, sets,
  slices with colons, starred, `yield` and `await` expressions.
- ExpressionRoundTrip.RoundTrip: constants are integers that are not negative, truth values, `None`, the ellipsis,
  strings, and floating-point and imaginary numbers, which are known by the text that is written for them. Tuple and
  frozen set constants, `nan`, negative numbers and complex numbers with a real part are written as operations, calls
  or displays, so that they do not come back as constants; the literals of bytes are not modelled.
- PrintedText.TextRoundTrip: the same trees; the prefix `u` is not modelled, nor are adjacent string literals, which
  the visitor never writes inside an expression.
- The extensions that the repository makes to the language: their parser is not part of this model. The parser here
  is that of standard Python.
- Names that are not identifiers, or are reserved words: the text round trip asks for proper names, as trees that
  come from source have.
- Trees in which one node object occurs twice: precedences are kept by place in the tree.
- Identifiers are ASCII letters, digits, underscores and any character from 128 on; normalisation of identifiers and
  the tables of Unicode properties are not modelled. `str.isprintable` is any table without control characters.
- The reader of string literals has no octal or named escapes and no prefixes; the writer emits none.
- `repr` of a floating-point number: any text of the form that number literals have.
- Classes are identities and their attributes are maps of one object, not heap objects; weak references and their
  death, user-defined `__subclasshook__`, assignment to `__bases__`, the debugging methods, names and abstract
  methods, and the order within an MRO are not modelled.
- Locks, real clocks, `sleep`, the log call itself, `io.TextIOWrapper` and `str` subclasses: time is an argument and
  the output is a ghost sequence. An encoder works character by character, and time and bucket levels are reals.
- `Set` operations other than comparison and hashing; the hash of an element is any integer.
- Everything else in the repository: it is plumbing, tables or input and output, and would add only easy members.
