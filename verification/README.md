# Verified model of the gateway's algorithms

This project models the algorithmic core of an IoT edge gateway in Dafny and proves what each part is
meant to do. The gateway is written in C; the model follows its code branch by branch, and file by file
the mutable parts stay mutable: loops, in-place buffers, linked nodes and classes, each proved against a
specification function, with the theorems stated about that function.

Seven subjects are covered.

1. **The expression compiler** (`inc/expr.h`). `ExprLexer` is the flag-driven lexer, `ExprParser` the
   transition system of the three stacks and of the identifier that is held back one token, `ExprCreate`
   the loops over mutable stacks that refine it. `ExprTexts` says what texts compile to, with the operators,
   their classes and their association listed, and which are refused; `ExprNumbers` what literals denote.
   `ExprRoundTrip` proves that the parser inverts a printer that writes the parentheses that precedence
   requires, and `ExprMinimal` that no text does with fewer. `ExprDiscipline` gives the invariant of the
   stacks over every run and the exact texts that break it. `ExprEval` and `ExprMacros` prove what macros
   mean, from their text to their value, and `ExprMeaning`, over the arithmetic of `ExprArithmetic`, what
   the text of each operator computes.
2. **The JSON codec** (`lib/cJSON.c`). Parser and printer are inverse on trees of every depth
   (`JsonRoundTrip`), the two-pass printers keep within their allocations (`JsonPrinter`), the loops of the
   parser compute it (`JsonReader`), strings are decoded in place within exact bounds (`JsonStrings`), escapes
   are transcoded to UTF-8 (`JsonUnicode`), minifying a buffer of formatted text leaves the unformatted text
   in it (`JsonMinify`), and chains of items implement sequences and are duplicated on fresh items
   (`JsonChain`, `JsonDuplicate`). `JsonGrammar` is the grammar of RFC 8259 with all its spellings, and every
   one is parsed as what it means; `JsonLayout` proves that what is printed is in it, and `JsonComments` that
   minifying a text with comments leaves one that is.
3. **The hash table** (`lib/hash_map.c`, `lib/linked_list.c`). `HashMap` refines a finite map over linked
   nodes, also while a callback removes entries during iteration. `IntKeys` and `DeviceKeys` show for which
   keys the comparators of the gateway make such a table.
4. **The provisioning database** (`src/attr.c`, `src/pdt.c`, `src/g1_fmt.c`). `Provisioning` works
   on hash tables; `TokenRanges` proves disjoint byte ranges, over a chain that is relinked in place, and
   `Conservation` three levels of reference counts over whole runs; `ConservationLimits` names the runs
   that lose the counts, and `AttrHistory` says where the type and the length of an attribute come from.
5. **Device ageing** (`src/dev.c`, `inc/list.h`). `List` has circular lists on the heap, `Ageing` proves
   when an early-stopping sweep is exact, and `DeviceStore` connects the two with the map of devices.
6. **The command line** (`lib/cli.c`). `CliMatch` proves when abbreviations are unambiguous and which
   command is chosen, `CliLine` that splitting inverts quoting.
7. **MD5** (`lib/md5.c`). `Md5` and `Md5Digest` prove that the loops compute the digest of RFC 1321, that
   padding is injective and that the steps are a bijection; `Md5Suite` works two digests of its test suite
   out.

Some claims hold only under a condition, and then the condition is proved to be exact. For a text that is
read to its end or up to an underflow the stack discipline holds all along if and only if the text has no
empty plain parentheses; a removal from the hash table faults if and only if the slot of the key has a
list and no key goes there; a decoded string fits its allocation whatever follows if and only if no
escape is cut off by the closing quote; `cJSON_Minify` overruns its text if and only if a literal or a
block comment does not end; macro parameters are distinct if and only if there are at most nine; an
insertion of a byte range is right for every list if and only if its end does not wrap around; the topics
of a format stay distinct over a run if and only if no token is added that overtakes the one with its
topic; a format or token change keeps the counts if and only if the stated precondition holds; the sweep
is exact for all intervals if and only if the list is sorted; an attribute update keeps the order if and
only if no device behind it is older than the clock; the abbreviation tests are right for all words if
and only if letter case does not hide a shared prefix; a word that means a visible command leaves no
other choice if and only if that command is of the session's own mode or the word does not name a hidden
configuration command; and a text in quotes on the command line is read back if and only if it holds no
quote of either kind. Most of these come with an input or a run that fails.

Where comments and code differ, the model follows the code. The comment on `hash_map_remove` in
`inc/hash_map.h` promises that removing an absent key does nothing, but the code looks through a null
pointer when the bucket list of that key has been emptied: `Remove` has the outcome `Fault` for that,
with its exact condition in terms of the map, and `RemoveTwice` is a run that ends in it. A caller that
removes only keys for which `ContainsKey` holds never sees it. `add_g1_token` returns a token even when
the count was refused and the token is gone: `ReturnedTokenIsThere` says exactly when it is there, and
`ReturnedTokenIsGone` is a run after which it is not. The printer of an empty object
writes one tab less than its depth, unlike that of other objects. A quote of one kind does not protect the
other on the command line: inside double quotes an apostrophe starts the word anew.

## Model

| member | source | states |
|---|---|---|
| `ExprLexer.ExprOp` | inc/expr.h:163-208 | the lookup returns the first table entry with the text and the wanted arity, `Unknown` when there is none |
| `ExprLexer.FindOpMatches` | inc/expr.h:199-208 | an operator that is found has a table entry with exactly that text and arity |
| `ExprLexer.ExprParseNumber` | inc/expr.h:210-235 | a literal is digits with at most one point; its value is the digits scaled down once per digit after the point; anything else is no number |
| `ExprLexer.Scan` | inc/expr.h:422-423 | the scanning loops stop at the first character outside their class |
| `ExprLexer.ExprNextToken` | inc/expr.h:415-495 | the lexer loop computes the token length, or the error code, and the new flags of its specification |
| `ExprLexer.NextToken` | inc/expr.h:415-495 | a token is never longer than the input, and 0 is returned exactly at its end, so every turn of the main loop makes progress |
| `ExprLexer.MunchIsMaximal` | inc/expr.h:477-493 | the scan stops at an operator that its next character does not extend to another one |
| `ExprLexer.TokensAreMaximal` | inc/expr.h:415-495 | every binary operator token is an operator of the table and maximal in the input; no token has length 0 |
| `ExprCreate.Compiler.BindOp` | inc/expr.h:501-532 | binding pops its operands in order and pushes the tree; it fails on a missing operand and on an assignment to anything but a variable |
| `ExprCreate.Compiler.UnwindTo` | inc/expr.h:691-698 | the loop of a closing parenthesis binds everything above the nearest opening, and stops at the height of the frame |
| `ExprCreate.Compiler.ShiftOp` | inc/expr.h:787-818 | the loop of an incoming operator binds what binds first, then pushes it; a comma right above a call brace moves the finished argument to the frame |
| `ExprCreate.Compiler.DrainAll` | inc/expr.h:835-843 | at the end every waiting operator is bound, and an open parenthesis is an error |
| `ExprCreate.Compiler.DeclareVar` | inc/expr.h:271-292 | a variable is added in front of the list once |
| `ExprCreate.Compiler.SettleId` | inc/expr.h:668-673 | the identifier held back becomes a variable operand when no call follows |
| `ExprCreate.Compiler.CompleteCall` | inc/expr.h:709-781 | a finished call defines a macro, expands the last macro of its name, or becomes a function node |
| `ExprCreate.Compiler.Close` | inc/expr.h:690-783 | a closing parenthesis in full: unwinding, popping the opening, taking the last argument, finishing the call |
| `ExprCreate.Compiler.Open` | inc/expr.h:649-689 | an opening parenthesis in full: a call of a known name pushes a frame with both stack heights, and a parenthesis after an operand is refused |
| `ExprCreate.Compiler.ActOn` | inc/expr.h:647-828 | one token on the three stacks, by its class |
| `ExprCreate.Compiler.ConsumeToken` | inc/expr.h:618-646 | comments and blanks are skipped, unary operators renamed, and a newline between operands read as a comma |
| `ExprCreate.Compiler.ClassifyToken` | inc/expr.h:784-827 | the class of a token text: parenthesis, number, operator, word, or none of them |
| `ExprCreate.ExprCreate` | inc/expr.h:586-852 | the whole loop over mutable stacks computes the compilation that the theorems below are about |
| `ExprRoundTrip.BindsAlong` | inc/expr.h:98-155 | an operator that binds first before another also binds first before everything that other lets in on its right |
| `ExprRoundTrip.ShiftClosesSpine` | inc/expr.h:793-818 | reading an operator closes exactly the open right edge of the tree before it |
| `ExprRoundTrip.UnwindClosesSpine` | inc/expr.h:691-698 | a closing parenthesis closes exactly the open right edge of the tree before it |
| `ExprRoundTrip.DrainClosesSpine` | inc/expr.h:835-843 | the end of the input closes the open right edge |
| `ExprRoundTrip.ShowStep` | inc/expr.h:586-829 | compiling the text of a tree and then any rest is compiling the rest with that tree on the stacks, from every state that awaits an operand |
| `ExprRoundTrip.BinaryStep` | inc/expr.h:784-818 | the same for a binary tree printed with the parentheses that `expr_prec` requires and no others |
| `ExprRoundTrip.FuncStep` | inc/expr.h:649-781 | the same for a call with any number of arguments |
| `ExprRoundTrip.CalledStep` | inc/expr.h:649-781 | any call, of a function, a macro or `$`, with any number of arguments: its arguments are read as they were written and then the call is completed |
| `ExprRoundTrip.MoreArgsStep` | inc/expr.h:690-781 | the same for the rest of a call, from any number of finished arguments, whatever is called |
| `ExprRoundTrip.ParserInvertsPrinter` | inc/expr.h:586-852 | main result: every writable tree, printed with the parentheses that `expr_prec` requires, compiles to exactly that tree, with `**`, `=` and `,` right associative and `*` left associative on the level of `**`, and declares its variables in order of first use |
| `ExprRoundTrip.NaturalLiteral` | inc/expr.h:210-235 | the decimal digits of a natural number are a literal of that number |
| `ExprTexts.TwoOperators` | inc/expr.h:98-187 | main result: with the operator texts, their classes and their association written out, the text `x p y q z` compiles to `(x p y) q z` when the class of `p` is tighter, or the same and `q` does not associate to the right, and to `x p (y q z)` otherwise; an assignment to the first tree is refused |
| `ExprTexts.UnaryThenBinary` | inc/expr.h:98-155 | a unary operator in front takes its operand before every binary operator, and an assignment to it is refused |
| `ExprTexts.BinaryThenUnary` | inc/expr.h:98-155 | after every binary operator a unary one starts the right operand |
| `ExprTexts.UnaryThenUnary` | inc/expr.h:98-155 | unary operators in a row apply from the inside out |
| `ExprTexts.CallsCompile` | inc/expr.h:649-781 | `f(x,y)` and `f()` compile to the function nodes with two arguments and none |
| `ExprTexts.NewVariablesComeFirst` | inc/expr.h:271-292 | variables are declared in the order of the text, each new one at the head of the list and each name once |
| `ExprTexts.NameCharacters` | inc/expr.h:157-161 | the characters that start a name and those that continue it, listed |
| `ExprTexts.BlanksStep` | inc/expr.h:436-440 | blanks before any token, in any state, do not matter, except that a single one right after a unary operator is refused |
| `ExprTexts.CommentStep` | inc/expr.h:421-424 | a comment up to the end of its line does not matter, in any state |
| `ExprTexts.NewlineStep` | inc/expr.h:425-435 | the end of a line is a comma exactly between an operand and anything but `)` and the end of the text |
| `ExprTexts.RefusedAssignment` | inc/expr.h:520-526 | a tree on the left of `=` that is not a variable is read whole and refused |
| `ExprTexts.TwoWordsRefused` | inc/expr.h:451-454 | two operands in a row are refused by the lexer |
| `ExprTexts.ParensRefused` | inc/expr.h:690-702 | parentheses that do not match are refused, at either side |
| `ExprTexts.UnknownFunctionRefused` | inc/expr.h:649-667 | a call of a name that is no function and no macro is refused |
| `ExprNumbers.FractionLiteral` | inc/expr.h:210-235 | digits around a point denote those digits as one number over ten to the number of places; a point alone is no number |
| `ExprNumbers.WholeLiteral` | inc/expr.h:210-235 | digits alone denote the number they write |
| `ExprDiscipline.UnwindKeeps` | inc/expr.h:691-701 | unwinding never lacks an operand and stops at an opening with one operand more than unbound binary operators |
| `ExprDiscipline.ShiftKeeps` | inc/expr.h:793-818 | an incoming operator never lacks an operand, and the argument a comma pops is the one operand above its frame |
| `ExprDiscipline.CloseKeeps` | inc/expr.h:690-783 | closing keeps the discipline if and only if it does not close an empty plain parenthesis |
| `ExprDiscipline.OperateKeeps` | inc/expr.h:787-818 | an operator keeps the discipline from every disciplined stack |
| `ExprDiscipline.TurnStep` | inc/expr.h:608-828 | one turn of the main loop: the discipline survives exactly when the turn does not close an empty plain parenthesis, no vector is popped when empty, and reading the text by itself says the same |
| `ExprDiscipline.RunKeeps` | inc/expr.h:608-829 | the discipline holds in every loop state of a text without empty plain parentheses |
| `ExprDiscipline.DisciplinedIffNoEmptyParens` | inc/expr.h:608-829 | without empty plain parentheses every loop state is disciplined, whatever the text; for a text that is read to its end or up to an underflow the converse holds too; and no run that underflows was disciplined throughout |
| `ExprDiscipline.DrainLeavesOne` | inc/expr.h:835-843 | without a missing operand exactly one tree is left |
| `ExprDiscipline.StackDiscipline` | inc/expr.h:586-852 | main result: no stack underflow in any run, operands missing only after a trailing operator, and exactly one tree after a non-empty success |
| `ExprDiscipline.EmptyParensUnderflow` | inc/expr.h:794-801 | `f((),1)` makes the comma pop from an empty vector |
| `ExprDiscipline.EmptyParensFound` | inc/expr.h:690-702 | that text is one the hypothesis of the main result excludes |
| `ExprEval.CopyIsEqual` | inc/expr.h:557-582 | the copy of a tree is the tree |
| `ExprEval.BodyChainInOrder` | inc/expr.h:754-763 | the chain of commas built from a macro body evaluates the body in order and yields its last value |
| `ExprEval.MacroCallMeans` | inc/expr.h:738-765 | main result: the spliced tree assigns the arguments to the parameters left to right, evaluates the body in order and yields its last value, 0 for an empty body, in every store and for every meaning of the other operators |
| `ExprEval.ParamNameIs` | inc/expr.h:745-747 | the four-byte buffer holds the name `$k` exactly for k at most 9 |
| `ExprEval.ParamsAreDistinct` | inc/expr.h:745-747 | n arguments keep parameters of their own if and only if n is at most 9 |
| `ExprArithmetic.RemainderIs` | inc/expr.h:322-324 | over the reals the remainder is smaller than the divisor, has the sign of the dividend, and differs from it by a multiple of the divisor |
| `ExprArithmetic.BitwiseBits` | inc/expr.h:355-363 | each bit of a bitwise result is what the two bits in its place give |
| `ExprMeaning.ArithmeticOutcome` | inc/expr.h:316-330 | the texts `x+y`, `x-y`, `x*y` and, for a divisor that is not 0, `x/y` have the sum, difference, product and quotient of the two variables as value, and change no variable |
| `ExprMeaning.OrderOutcome` | inc/expr.h:337-348 | `x<y`, `x<=y`, `x>y` and `x>=y` are 1 when the comparison holds and 0 otherwise |
| `ExprMeaning.EqualityOutcome` | inc/expr.h:349-354 | so are `x==y` and `x!=y` |
| `ExprMeaning.RemainderOutcome` | inc/expr.h:322-324 | `x%y` is that remainder, for a divisor that is not 0 |
| `ExprMeaning.PowerOutcome` | inc/expr.h:313-315 | `x**y` multiplies x as many times as the natural number y says |
| `ExprMeaning.ShiftOutcome` | inc/expr.h:331-336 | on natural numbers `x<<y` multiplies by a power of two and `x>>y` divides and drops the rest |
| `ExprMeaning.BitsOutcome` | inc/expr.h:355-363 | on natural numbers bitwise and, or and exclusive or of two variables have the bits that are set in both, in one, in only one of them |
| `ExprMeaning.UnaryOutcome` | inc/expr.h:307-312 | `-x` changes the sign, `!x` is 1 for 0 and 0 otherwise, `^x` complements the integer part of x |
| `ExprMeaning.AssignmentOutcome` | inc/expr.h:384-389 | `x=z` stores the value of its right side and yields it, and in `x=y=z` the right assignment comes first |
| `ExprMeaning.CommaOutcome` | inc/expr.h:390-392 | `x=y,z` assigns first and yields the second part |
| `ExprMeaning.LogicOutcome` | inc/expr.h:364-383 | a logical and yields 0 or its right operand, a logical or its left operand unless that is 0 |
| `ExprMeaning.GuardOutcome` | inc/expr.h:364-383 | an assignment on the right of a logical and or of a logical or happens exactly when the left operand does not decide |
| `ExprMeaning.OperandOutcome` | inc/expr.h:393-396 | a name yields what is stored under it, 0 when there is nothing, and digits the number they write |
| `ExprMeaning.ChainOutcome` | inc/expr.h:98-155 | `x-y-z`, `x-(y-z)` and `x-y*z` have the values that grouping to the left, the parentheses and the product before the difference give |
| `ExprMeaning.RuleOutcome` | inc/expr.h:304-403 | main result: for all natural numbers n, m and k the text `x=n,y=m,x+y>k`, with the numbers in decimal digits, compiles; its value is 1 if n + m > k and 0 otherwise, and it stores the two numbers |
| `ExprMeaning.MacroOutcome` | inc/expr.h:709-766 | main result: `$(f,$1-$2),f(x,y)` has the difference of the two arguments as value, evaluated from left to right, each into the parameter that stands for it |
| `ExprMacros.DefinitionStep` | inc/expr.h:715-733 | compiling `$(name, body...)` in any state that awaits an operand adds that macro, declares what the body names, and leaves the constant 0 |
| `ExprMacros.MacroStep` | inc/expr.h:734-766 | compiling a call of a macro in any state that awaits an operand leaves the spliced tree of the last definition and declares its parameters |
| `ExprMacros.NoNameRefused` | inc/expr.h:709-719 | a definition without a name, or with anything but a name in its place, is refused |
| `ExprMacros.LastDefinitionCounts` | inc/expr.h:731-739 | of the definitions under one name the last one counts, and definitions under other names change nothing |
| `ExprMacros.MacroTextMeans` | inc/expr.h:586-852 | main result: the text of a definition, a comma and a call compiles, and evaluating the result assigns the arguments to the parameters left to right, evaluates the body in order and yields its last value |
| `ExprMinimal.PrintedReads` | inc/expr.h:98-155 | the printed text opens one parenthesis for every call, every operand that `expr_prec` sends to the wrong side, and every comma tree inside a call, and no plain one of them is empty |
| `ExprMinimal.UnwindPays` | inc/expr.h:691-698 | unwinding makes no tree that is written with more parentheses than have been read |
| `ExprMinimal.ShiftPays` | inc/expr.h:787-818 | nor does an incoming operator, whatever it binds |
| `ExprMinimal.OpeningSplits` | inc/expr.h:415-495 | reading one token takes one opening parenthesis off the count exactly when it is one; comments and words hold none |
| `ExprMinimal.TurnPays` | inc/expr.h:608-828 | nor does any turn of the main loop: what the stacks hold never needs more parentheses than have been read |
| `ExprMinimal.RunPays` | inc/expr.h:608-829 | the same over every run |
| `ExprMinimal.FewestParens` | inc/expr.h:586-852 | main result: of all texts that compile to a tree, without macros and empty plain parentheses, none has fewer opening parentheses, those in comments not counted, than the printed one; so every pair that the printer writes is needed |
| `JsonPrinter.PrintStringPtr` | lib/cJSON.c:215-248 | the two passes fill the allocation to its last character with the quoted, escaped text |
| `JsonPrinter.PrintNumber` | lib/cJSON.c:118-126 | an integer of `int` range is printed in decimal within its buffer |
| `JsonPrinter.PrintArray` | lib/cJSON.c:348-403 | separators, entries and terminator never pass the length of the first pass, and the text is that of the array |
| `JsonPrinter.FillArray` | lib/cJSON.c:378-403 | the second pass of an array: every write is within the computed length |
| `JsonPrinter.PrintObject` | lib/cJSON.c:442-507 | names, colons, tabs at the current depth, entries and terminator never pass the length of the first pass, and the text is that of the object |
| `JsonPrinter.FillObject` | lib/cJSON.c:479-506 | the second pass of an object: every write is within the computed length |
| `JsonPrinter.PrintEmptyObject` | lib/cJSON.c:450-459 | an empty object fits its own allocation, with one tab less than its depth |
| `JsonPrinter.PrintValue` | lib/cJSON.c:302-317 | the printer over all kinds of values yields the text that the round trip is about |
| `JsonReader.ReadString` | lib/cJSON.c:155-212 | the parsing loop of a string computes its specification |
| `JsonReader.ReadNumber` | lib/cJSON.c:96-115 | the loops over whole, fraction and exponent digits compute the number and where it ends |
| `JsonReader.ReadValue` | lib/cJSON.c:287-299 | the dispatch of a value, and the failure on anything else |
| `JsonReader.ReadArray` | lib/cJSON.c:320-345 | the loop over the items of an array |
| `JsonReader.ReadObject` | lib/cJSON.c:406-439 | the loop over the members of an object |
| `JsonRoundTrip.UnescapeUndoesEscape` | lib/cJSON.c:155-248 | reading an escaped text gives back every NUL-free string and stops at the closing quote |
| `JsonRoundTrip.StringRoundTrip` | lib/cJSON.c:155-248 | parsing what `print_string_ptr` prints gives the string and the text behind it |
| `JsonRoundTrip.NumberRoundTrip` | lib/cJSON.c:96-126 | parsing the decimal digits of an integer gives it back, before any text that cannot extend a number |
| `JsonRoundTrip.ValueRoundTrip` | lib/cJSON.c:155-507 | main result: for every tree, depth and format, parsing the printed text followed by any rest that cannot extend a number gives the same tree and exactly that rest |
| `JsonRoundTrip.ItemsRoundTrip` | lib/cJSON.c:320-403 | the same for the items of an array after any that have been read |
| `JsonRoundTrip.MembersRoundTrip` | lib/cJSON.c:406-507 | the same for the members of an object after any that have been read |
| `JsonGrammar.PiecesRead` | lib/cJSON.c:155-212 | a string written in any mix of characters as they are, the eight short escapes and hexadecimal escapes of either case is decoded to what it means |
| `JsonGrammar.OpenStringReads` | lib/cJSON.c:165-212 | a string that does not end is taken up to the end of the text |
| `JsonGrammar.OtherEscapes` | lib/cJSON.c:203 | a backslash before any other character stands for nothing |
| `JsonGrammar.DroppedEscapes` | lib/cJSON.c:179-190 | the hexadecimal digits of 0, of the second half of a surrogate pair and of a first half that no backslash follows, and four characters that are not all hexadecimal digits, are dropped |
| `JsonGrammar.NumReads` | lib/cJSON.c:96-115 | a number with any sign, whole digits, places after the point and exponent is read as those digits scaled by powers of ten, and so is what follows it |
| `JsonGrammar.ValueReads` | lib/cJSON.c:155-439 | main result: every value of the grammar of RFC 8259, with any white space between its parts and any spelling of its strings and numbers, is parsed as the tree it means, and what follows it is left |
| `JsonGrammar.NoValueRefused` | lib/cJSON.c:287-299 | a text that starts like no value is refused |
| `JsonGrammar.ArrayRefused` | lib/cJSON.c:334-345 | after any number of items anything but a comma and the bracket is refused |
| `JsonGrammar.ArrayCommaRefused` | lib/cJSON.c:334-341 | a comma in an array with no value after it is refused |
| `JsonGrammar.ObjectRefused` | lib/cJSON.c:424-439 | after any number of members anything but a comma and the brace is refused |
| `JsonGrammar.ObjectCommaRefused` | lib/cJSON.c:424-435 | a comma in an object with no name after it is refused |
| `JsonGrammar.ColonRefused` | lib/cJSON.c:417-420 | a name without a colon is refused |
| `JsonLayout.PieceIsEscape` | lib/cJSON.c:215-248 | each character is printed as it is, as one of the seven short escapes that are used, or in hexadecimal digits |
| `JsonLayout.LayoutSpells` | lib/cJSON.c:302-507 | the printed text of every tree, at every depth, is the text of the grammar with the stated layout: where blanks, line ends and tabs stand in formatted text, and nothing in unformatted text |
| `JsonLayout.PrintedIsJson` | lib/cJSON.c:302-507 | main result: what is printed is a text of the grammar of RFC 8259 and means the tree |
| `JsonUnicode.Utf8Decodes` | lib/cJSON.c:192-200 | the bytes written for a code point, whatever follows them, decode to it under the table of section 3 of RFC 3629, in the shortest form |
| `JsonUnicode.Utf8AllDecodes` | lib/cJSON.c:192-200 | decoding the bytes written for any sequence of scalar values gives that sequence |
| `JsonUnicode.EscapesTranscode` | lib/cJSON.c:165-206 | main result: any sequence of non-zero scalar values written as escapes, each hexadecimal digit in either case, surrogate pairs above U+FFFF included, is decoded to its UTF-8 encoding |
| `JsonUnicode.DecodedFits` | lib/cJSON.c:160-207 | for well-formed escapes the decoded bytes fit the length of the skipping pass |
| `JsonStrings.SecondPassFits` | lib/cJSON.c:160-207 | from any position of the text before the closing quote, the second pass yields no more bytes than the first counts, however the two fall out of step |
| `JsonStrings.DecodedFitsIff` | lib/cJSON.c:155-212 | main result: the decoded string fits its allocation whatever follows the closing quote, if and only if no escape is cut off by that quote |
| `JsonStrings.FirstPass` | lib/cJSON.c:160 | the measuring loop finds the length, or steps over the terminator exactly when a backslash comes last |
| `JsonStrings.ReadCode` | lib/cJSON.c:180-190 | the digits, the checks and the second half of a `\u` escape: the code point to write, if any, and where the escape ends |
| `JsonStrings.WriteUtf8` | lib/cJSON.c:192-200 | the falling `switch` writes the bytes of a code point from the last to the first |
| `JsonStrings.ReadEscape` | lib/cJSON.c:171-204 | one escape, from its backslash, written to the result |
| `JsonStrings.SecondPass` | lib/cJSON.c:165-208 | the decoding loop writes the decoded text and its terminator; it leaves the text or the allocation exactly when an escape is cut off by the end or the text does not fit |
| `JsonStrings.ParseStringInPlace` | lib/cJSON.c:155-212 | main result: `parse_string` on a buffer stays inside its text and its allocation if and only if the text is in bounds, and then gives the decoded text and the index behind it |
| `JsonStrings.PrintedInBounds` | lib/cJSON.c:155-248 | what `print_string_ptr` prints is in bounds, whatever follows |
| `JsonMinify.MinifyInPlace` | lib/cJSON.c:581-596 | one buffer ends up with the minified text and its terminator, the write index never passing the read index; the text is overrun if and only if a literal or a block comment does not end |
| `JsonMinify.UnclosedTexts` | lib/cJSON.c:591-592 | an open quote and an open block comment are such texts |
| `JsonMinify.CommentsVanish` | lib/cJSON.c:590-591 | a line comment vanishes with its line end, a block comment up to its first end |
| `JsonMinify.ValueMinifies` | lib/cJSON.c:302-596 | the formatted text of a tree at any depth minifies to its unformatted text, whatever follows |
| `JsonMinify.MinifiedIsUnformatted` | lib/cJSON.c:283-284 | main result: minifying `cJSON_Print` of a tree gives `cJSON_PrintUnformatted` of it byte for byte |
| `JsonComments.ValueMinified` | lib/cJSON.c:581-596 | minifying a value takes out the blanks and comments that fill the gaps between its parts, and nothing else, whatever follows |
| `JsonComments.MinifiedParses` | lib/cJSON.c:155-596 | main result: a JSON text with blanks and comments of both kinds anywhere between its parts, minified, is parsed as what it means |
| `JsonText.PrintIsNulFree` | lib/cJSON.c:302-507 | no printed text holds a NUL, so its terminator is its end |
| `JsonMinify.MinifyPrinted` | lib/cJSON.c:283-596 | a buffer that holds formatted text holds the unformatted text of the same tree after `cJSON_Minify` |
| `JsonChain.Item.Nth` | lib/cJSON.c:511 | the walk to a position stops at that child, or at null past the end |
| `JsonChain.Item.AddItem` | lib/cJSON.c:515-520 | adding appends any item to the sequence of children; the links are mutually inverse and end in null afterwards if and only if the item came without a follower, and into an empty array without a predecessor |
| `JsonChain.Item.Detach` | lib/cJSON.c:525-526 | detaching takes exactly the child at the position out, with its links cleared |
| `JsonChain.Item.Replace` | lib/cJSON.c:532-534 | replacing puts the new item in the place of the old one and changes no other |
| `JsonDuplicate.Duplicate` | lib/cJSON.c:554-579 | the duplicate is a tree on fresh items with the same data and children in order, reference flags cleared; without recursion it has no children |
| `JsonDuplicate.Attach` | lib/cJSON.c:574-575 | linking a copied child makes it the last one |
| `JsonDuplicate.ReferenceIsCleared` | lib/cJSON.c:562-563 | of the type of a reference the flag 256 is taken off, and any other type stays |
| `HashMap.LinkedList.constructor` | lib/linked_list.c:5-14 | a new list is empty behind its sentinel |
| `HashMap.LinkedList.Prepend` | lib/linked_list.c:33-40 | the new entry is the first |
| `HashMap.LinkedList.Append` | lib/linked_list.c:20-31 | the new entry is the last |
| `HashMap.LinkedList.Find` | lib/hash_map.c:77-86 | the walk stops at the first node with an equal key |
| `HashMap.LinkedList.PutEntry` | lib/hash_map.c:101-125 | the first entry with an equal key gets the value, or a new entry does |
| `HashMap.LinkedList.FindPrevious` | lib/hash_map.c:136-161 | the walk stops at the first node with an equal key or at the last node; on a list without nodes it looks through a null pointer |
| `HashMap.LinkedList.Remove` | lib/hash_map.c:128-162 | the first node with an equal key is relinked past, and nothing else changes; a fault, exactly on a list without nodes, changes nothing |
| `HashMap.LookupAgrees` | lib/hash_map.c:70-90 | looking into the one bucket of a key is looking into the map |
| `HashMap.PutAgrees` | lib/hash_map.c:92-126 | storing in the one bucket of a key is updating the map |
| `HashMap.RemoveAgrees` | lib/hash_map.c:128-162 | removing from the one bucket of a key is removing from the map |
| `HashMap.HashMap.constructor` | lib/hash_map.c:19-43 | a new table is the empty map |
| `HashMap.HashMap.Get` | lib/hash_map.c:70-90 | the value of the map, or nothing, for every in-range hash and consistent comparator |
| `HashMap.HashMap.ContainsKey` | lib/hash_map.c:187-207 | true exactly for the keys of the map |
| `HashMap.HashMap.Put` | lib/hash_map.c:92-126 | the map updated at the key; the size stays the number of its keys |
| `HashMap.EmptyBucketIff` | lib/hash_map.c:70-90 | a bucket is empty if and only if no key of the map goes there |
| `HashMap.HashMap.Remove` | lib/hash_map.c:128-162 | the map without the key; it faults if and only if the slot of the key has a list and no key of the map goes there, so never for a key that is there, and a fault changes nothing |
| `HashMap.RemoveTwice` | lib/hash_map.c:128-162 | in every table a key that is put and then removed twice makes the second removal fault |
| `HashMap.HashMap.WorkRemoving` | lib/hash_map.c:209-232 | with a callback that removes the current entry every entry is visited in table order, and the table ends empty with size 0 |
| `HashMap.FlattenEnumerates` | lib/hash_map.c:209-232 | the entries in table order are those of the map, each key once |
| `IntKeys.IntsAreConsistent` | inc/hash_map.h:136-149 | the unsigned difference that is returned as an `int` is zero exactly for equal numbers, so tables over 32-bit keys are finite maps |
| `IntKeys.HashesAre` | inc/hash_map.h:141-149 | the hash values of some keys, which pin down the mixing steps |
| `DeviceKeys.StrCmpIsPrefixTest` | inc/hash_map.h:151-154 | the string comparator accepts exactly the strings that start with the stored key |
| `DeviceKeys.StrCmpIsEqualityIff` | inc/hash_map.h:151-154 | on a set of keys it is equality if and only if no key is a proper prefix of another |
| `DeviceKeys.AnyStringIsTooMuch` | inc/hash_map.h:151-154 | over all strings it is not the comparator of a finite map |
| `DeviceKeys.OidsAreConsistent` | src/dev.c:30-45 | over identifiers of 32 hexadecimal digits it is, with every hash function that stays in range |
| `TokenRanges.TokenList.FindPlace` | src/g1_fmt.c:23-49 | the walk over the linked tokens finds the link where the token first fits, or refuses it |
| `TokenRanges.TokenList.AddTokenInternal` | src/g1_fmt.c:8-55 | an accepted token is linked in at that place of the chain, and a refusal changes nothing |
| `TokenRanges.TokenList.DelTokenInternal` | src/g1_fmt.c:57-74 | the first token with the topic is relinked past, and no other |
| `TokenRanges.OrderedIsDisjoint` | src/g1_fmt.c:27-43 | in an ordered list the ranges are pairwise disjoint and in the order of their offsets |
| `TokenRanges.InsertPutsIn` | src/g1_fmt.c:51-52 | an accepted token goes between two neighbours as it is, and all others stay |
| `TokenRanges.InsertKeepsOrder` | src/g1_fmt.c:23-53 | an accepted token without wrap-around keeps the list ordered and within the packet |
| `TokenRanges.DeleteKeepsOrder` | src/g1_fmt.c:57-74 | deleting keeps the list ordered and within the packet |
| `TokenRanges.InsertIffFreeFrom` | src/g1_fmt.c:23-49 | on an ordered list, with the topic absent, an insertion succeeds exactly when the range is within the packet and overlaps nothing |
| `TokenRanges.InsertIffFree` | src/g1_fmt.c:32-43 | that equivalence holds for every list if and only if the end of the range does not wrap around an `unsigned long` |
| `TokenRanges.InsertIff` | src/g1_fmt.c:23-49 | on every ordered list, without wrap-around: a new topic is accepted exactly when its range is free, and a topic that is there exactly when its range overtakes it, by a free place before the token in front of it |
| `TokenRanges.InsertKeepsDistinct` | src/g1_fmt.c:23-52 | an insertion keeps topics distinct if and only if the new range does not overtake its own topic |
| `TokenRanges.WrappedIsAccepted` | src/g1_fmt.c:32-43 | a range that wraps around is accepted although no packet can hold it |
| `Provisioning.Store` | lib/hash_map.c:92-126 | what changes behind the pointer of an entry, or is put in, is an update of the map that the table holds |
| `Provisioning.Drop` | lib/hash_map.c:128-162 | an entry that is there leaves the map, and the removal does not fault |
| `Provisioning.Database.AddGlobalAttr` | src/attr.c:52-75 | a topic is created with one reference or counted up; bad arguments change nothing |
| `Provisioning.Database.DelGlobalAttrRef` | src/attr.c:82-107 | a topic is counted down, not below 0, and removed at 0 |
| `Provisioning.Database.CountUp` | src/pdt.c:15-42 | the count of a product and the global count both go up, or neither does |
| `Provisioning.Database.CountDown` | src/pdt.c:44-64 | the count of a product and the global count both go down, and entries vanish at 0 |
| `Provisioning.Database.AddG1Token` | src/g1_fmt.c:89-115 | a token is inserted and counted, or taken out again when counting refuses it; the result is then still a token |
| `Provisioning.Database.DelG1Token` | src/g1_fmt.c:117-134 | the topic is counted down and its first token removed |
| `Provisioning.Database.AddG1Fmt` | src/g1_fmt.c:136-160 | a format without tokens is stored under its key |
| `Provisioning.Database.DelG1Fmt` | src/g1_fmt.c:162-196 | every token of the format is counted down, then the format is removed |
| `Provisioning.Database.AddProduct` | src/pdt.c:79-104 | a new product starts without formats and attributes; an existing one is left alone |
| `Provisioning.Database.DelProduct` | src/pdt.c:111-140 | every format is deleted once, in the order in which the table visits them, then the product is removed |
| `Conservation.IncKeeps` | src/pdt.c:15-42 | counting up keeps the balance and changes one count of one product by one |
| `Conservation.DecKeeps` | src/pdt.c:44-64 | counting down keeps the balance and changes one count of one product by one |
| `Conservation.DeleteUndoesInsert` | src/g1_fmt.c:8-74 | taking the topic out that was just put in gives the old list back |
| `Conservation.AddTokenConserves` | src/g1_fmt.c:89-115 | adding a token keeps all three levels of counts |
| `Conservation.DelTokenConserves` | src/g1_fmt.c:117-134 | deleting a token keeps the counts if and only if the format has the token, or the call changes nothing |
| `Conservation.AddFmtConserves` | src/g1_fmt.c:136-160 | adding a format keeps the counts if and only if the key is new or its old format had no tokens |
| `Conservation.DelFmtConserves` | src/g1_fmt.c:162-196 | deleting a format keeps the counts and lowers those of its product by exactly its tokens |
| `Conservation.AddPdtConserves` | src/pdt.c:79-104 | adding a product keeps the counts |
| `Conservation.DelFmtsEmpty` | src/pdt.c:124 | deleting all formats, in any order, empties the attribute map of the product |
| `Conservation.DelPdtConserves` | src/pdt.c:111-140 | deleting a product keeps the counts and lowers the global ones by exactly its tokens |
| `Conservation.ReferenceConservation` | src/pdt.c:15-140 | main result: after every legal run each global count is the sum of the counts of the products, each of those is the number of tokens with that topic, and entries exist exactly when counts are positive |
| `Conservation.RunKeepsRanges` | src/g1_fmt.c:8-74 | in every run whose range ends fit a machine word all token lists stay ordered, disjoint and within their packets |
| `ConservationLimits.ReturnedTokenIsThere` | src/g1_fmt.c:89-115 | when the insertion succeeded there is one token more with the topic if and only if the arguments can be counted; if the topic was absent, it is in the format afterwards exactly then |
| `ConservationLimits.ReturnedTokenIsGone` | src/g1_fmt.c:89-115 | after a product and a format have been added, adding a token of kind `EDGE_ATTR_BUTT` returns it and leaves the database as it was |
| `ConservationLimits.StepKeepsTopics` | src/g1_fmt.c:89-115 | a step keeps the topics of every format distinct if and only if it is not the addition of a token that can be counted and overtakes the one with its topic |
| `ConservationLimits.TopicsDistinctIff` | src/g1_fmt.c:8-196 | main result: over every run whose sizes and range ends are machine words, topics are distinct in every state if and only if no step is such an addition |
| `ConservationLimits.TopicCanBeThereTwice` | src/g1_fmt.c:23-37 | a legal run of five steps from the empty database after which a format has one topic twice |
| `ConservationLimits.FormatAddedTwice` | src/g1_fmt.c:136-160 | adding a format, a token and the same format again loses the balance of the counts |
| `ConservationLimits.TokenDeletedElsewhere` | src/g1_fmt.c:117-134 | deleting a topic through a format that does not hold it loses the balance of the counts |
| `AttrHistory.StepKeepsKinds` | src/attr.c:59-74 | no step changes the type or the length of a topic that is there before and after it |
| `AttrHistory.StepBringsInIff` | src/attr.c:52-75 | a topic that was not there is there after a step exactly when the step adds a token with it whose arguments are good and which finds its place; it has the type and the length of that token and one reference |
| `AttrHistory.RunKeepsKinds` | src/attr.c:52-107 | over every run a topic that stays keeps its type and its length |
| `AttrHistory.AttributeHasOrigin` | src/attr.c:52-107 | main result: whatever attribute a run leaves was there throughout, or one step of the run brought it in and it stayed; its type and length are those it started with |
| `AttrHistory.BuiltAttributeHasOrigin` | src/attr.c:52-107 | in a database that a run has built every attribute has the type and the length of the token that brought it in |
| `List.Node.Head` | inc/list.h:36-40 | a head linked to itself is the empty list |
| `List.InsertedRing` | inc/list.h:64-72 | a chain between two neighbours of a ring makes a longer ring |
| `List.WithoutRing` | inc/list.h:84-88 | the neighbours of a node close up to a shorter ring |
| `List.Add` | inc/list.h:74-77 | the node comes right after the head |
| `List.AddTail` | inc/list.h:79-82 | the node comes last |
| `List.Del` | inc/list.h:95-99 | the node is out of the list and its links are null |
| `List.MoveTail` | inc/list.h:107-112 | the node leaves its place and comes last |
| `List.Empty` | inc/list.h:51-54 | true exactly for the list without nodes |
| `List.SpliceInit` | inc/list.h:114-135 | the nodes of one list come in order before those of the other, and the first list is left empty |
| `List.SpliceTailInit` | inc/list.h:114-144 | the nodes of one list come in order after those of the other, and the first list is left empty |
| `Ageing.SweepIsExact` | src/dev.c:322-329 | on a list sorted by `ts` the early-stopping sweep removes exactly the devices older than the interval |
| `Ageing.SweepIsExactIffSorted` | src/dev.c:322-329 | with all timestamps up to the clock, the sweep is exact for every interval if and only if the list is sorted |
| `Ageing.TouchKeepsOrder` | src/dev.c:83 | an attribute update keeps the order if and only if every device further back was heard of in the same second |
| `Ageing.TouchCanBreakOrder` | src/dev.c:75-104 | two devices for which an update without a refresh makes a later sweep keep an expired device |
| `Ageing.StepKeeps` | src/dev.c:126-208 | add, refresh, attribute update while the message is read, delete and tick keep the list sorted, free of duplicates and up to the clock, with the device being read in last place |
| `Ageing.RunKeeps` | src/dev.c:126-334 | the same over every run |
| `Ageing.SweepAfterRunIsExact` | src/dev.c:309-334 | main result: after every run with a clock that never goes back, a due sweep removes all devices older than the interval and no others |
| `Ageing.StepNotes` | src/dev.c:126-334 | every operation changes when each device was last heard of exactly as a plain map would: set, kept, removed, or dropped when older than the interval |
| `Ageing.RunIsRecord` | src/dev.c:126-334 | main result: over every run the ordered list with its early-stopping sweeps equals a record without order whose sweeps look at every device |
| `DeviceStore.Registry.AddDev` | src/dev.c:136-161 | a new device is in the map and last in the age list; a known one is refused |
| `DeviceStore.Registry.FreshDev` | src/dev.c:126-134 | the device gets the time and moves to the end, in both structures |
| `DeviceStore.Registry.UpdateDevAttr` | src/dev.c:83 | the device gets the time and stays where it is |
| `DeviceStore.Registry.DelDev` | src/dev.c:197-208 | the device leaves the list and the map |
| `DeviceStore.Registry.SweepAgeList` | src/dev.c:322-329 | the loop over list nodes that are deleted under it is the sweep of the sequence |
| `DeviceStore.Registry.DoDeviceAgeing` | src/dev.c:309-334 | the first call only sets the time, a call within a minute does nothing, any other sweeps; map and list keep holding the same devices |
| `CliMatch.CommonLen` | lib/cli.c:222-227 | one more than the length of the longest common prefix |
| `CliMatch.SetUniqueLen` | lib/cli.c:209-231 | a visible command gets one more than the longest prefix it shares with another visible sibling, any other the length of its name |
| `CliMatch.CliBuildShortest` | lib/cli.c:201-238 | every command that is reached through visible ones has that length, over the whole tree |
| `CliMatch.PassesIff` | lib/cli.c:741-745 | the two comparisons accept exactly the full name, and the prefixes of it that are at least `unique_len` long, ignoring case |
| `CliMatch.MeansIff` | lib/cli.c:741-745 | being a prefix of no other visible sibling is being longer than what is shared with each, ignoring case |
| `CliMatch.TestsAreRightIff` | lib/cli.c:213-231 | main result: the tests accept exactly the full name and the unambiguous prefixes, for all words, if and only if what the command shares letter for letter, up to its whole name, is what it shares ignoring case |
| `CliMatch.BuiltTestsAreRight` | lib/cli.c:736-745 | on a built tree whose names agree in case on shared prefixes the tests accept exactly the words that mean the command |
| `CliMatch.NoWordMeansTwo` | lib/cli.c:736-745 | no word means two visible siblings whose names differ by more than case |
| `CliMatch.CaseCanConfuse` | lib/cli.c:226 | for `Show` and `shut` the word `s` passes both tests |
| `CliMatch.LowerIs` | lib/cli.c:741-745 | ignoring case maps the twenty-six letters to their lower case and changes nothing else |
| `CliMatch.CliFindCommand` | lib/cli.c:736-945 | an empty word makes the code look in front of it, a question is help, and for any other word a command is chosen exactly when there is a candidate: the first of the mode of the session or, before it, the second for any mode; else the last of the configuration mode; else the one for any mode |
| `CliMatch.OnlyChoiceIsChoice` | lib/cli.c:736-945 | an only choice is what the search comes to |
| `CliMatch.MeantIsOnlyChoice` | lib/cli.c:736-945 | a word that means a visible command makes it the only choice if and only if the command is of the mode of the session, or the word is not the full name of a configuration command that the session may drop out to |
| `CliMatch.HiddenTakesOver` | lib/cli.c:736-945 | in a configuration submode `show` means `showall`, a command for any mode, and a hidden `show` of the configuration mode is chosen |
| `CliLine.CliParseLine` | lib/cli.c:612-673 | the loops over pointers compute the words of the specification and terminate on characters left, then whether a word is open; fewer than `max_words` words |
| `CliLine.ReadItem` | lib/cli.c:629-670 | one written item, bare, in quotes of either kind, or a bar, is read back as one word |
| `CliLine.SplittingInvertsWriting` | lib/cli.c:612-673 | main result: for any items with blanks between them, bare words, words in quotes of either kind and bars, splitting the written line gives the items back as far as there is room; a bar in first place puts an empty word before them |
| `CliLine.ParsedWordsArePlain` | lib/cli.c:650-654 | no word of any line holds a quote of either kind |
| `CliLine.QuotingWorksIff` | lib/cli.c:629-654 | a text in quotes of either kind is read back if and only if it holds no quote of either kind |
| `CliLine.OtherQuoteStartsAnew` | lib/cli.c:650-654 | a quote of the other kind inside quotes starts the word anew, and the closing one does so again: what was written is lost |
| `Md5.ToInt32UndoesBytes` | lib/md5.c:39-53 | `to_int32` undoes `to_bytes` |
| `Md5.PaddedLength` | lib/md5.c:78-90 | padding gives the least multiple of 64 bytes that holds the message and nine bytes more |
| `Md5.PaddingIsInjective` | lib/md5.c:78-90 | different messages are padded differently, of whatever length |
| `Md5.SameChoice` | lib/md5.c:109-121 | the four forms of `f` are the functions F, G, H and I of section 3.4 of RFC 1321 |
| `Md5.SamePlace` | lib/md5.c:109-121 | the four forms of `g` give the word orders that section 3.4 lists |
| `Md5.SameAmount` | lib/md5.c:31-34 | the amounts of the table are those of the operations that section 3.4 lists, round by round and register by register |
| `Md5.PassingOn` | lib/md5.c:123-127 | handing every variable on is giving every register of the standard its next role |
| `Md5.TurnsAreOperations` | lib/md5.c:107-129 | after every number of steps the variables hold the registers of the standard, whose operations have word orders and amounts of their own |
| `Md5.RotationUndone` | lib/md5.c:37 | the rotations by the amounts that are used have inverses |
| `Md5.StepsAreBijective` | lib/md5.c:107-129 | for every block the loop is a bijection on a, b, c and d: it has an inverse on both sides |
| `Md5Digest.ToBytes` | lib/md5.c:39-45 | the four bytes are written and no others |
| `Md5Digest.NewLen` | lib/md5.c:78-79 | the counting loop finds the number of zero bytes |
| `Md5Digest.Prepare` | lib/md5.c:81-90 | the prepared buffer is the padded message |
| `Md5Digest.LoadWords` | lib/md5.c:97-98 | the words of a chunk, low-order byte first |
| `Md5Digest.Steps` | lib/md5.c:101-129 | the main loop takes the 64 steps |
| `Md5Digest.TurnsCompress` | lib/md5.c:101-135 | the loop and the final additions are the compression of the standard |
| `Md5Digest.InitialIs` | lib/md5.c:67-71 | the initial values are the byte sequences of section 3.3 |
| `Md5Digest.WriteDigest` | lib/md5.c:142-146 | the sixteen bytes of the four values are written, each low-order byte first |
| `Md5Digest.ComputeMd5` | lib/md5.c:55-147 | main result: for every message the bytes written are the digest of sections 3.1 to 3.5 of RFC 1321 |
| `Md5Suite.EmptyDigest` | lib/md5.c:10-147 | main result: the digest of the empty message is the one of the test suite in section A.5 of RFC 1321, d41d8cd98f00b204e9800998ecf8427e; this fixes every entry of the tables |
| `Md5Suite.AbcDigest` | lib/md5.c:10-147 | the digest of "abc" is 900150983cd24fb0d6963f7d28e17f72 |

## Left out

- Floating point in `expr_eval` and `expr_parse_number`: rounding, infinity, NaN, `powf`, `fmodf` and the conversions to `int`. Numbers are reals, and operands are evaluated from left to right. In `ExprEval` and `ExprMacros` the meaning of all operators but `=`, `,`, `&&` and `||` is a parameter; in `ExprMeaning` what is left open is division by 0, powers with exponents that are not natural numbers, and shifts and bits of negative numbers.
- ExprCreate.Compiler.CompleteCall: the walk of a pointer through the spliced tree of a macro is a recursive construction of the same tree, and function contexts are not modelled.
- ExprCreate.Compiler.Open: the two entries that a call pushes on the operator stack, its name and its brace, are one entry here, and the frame height counts entries accordingly.
- Pops from an empty vector are not undefined here: the model has an outcome `Underflow` for them, and the stack discipline says when it cannot occur.
- ExprRoundTrip.ParserInvertsPrinter: the printer writes no blanks, comments, newlines and macro calls; macro calls have their own steps in `ExprMacros`.
- ExprMinimal.FewestParens: texts that define macros, since a macro copies the parentheses of its body, and texts with empty plain parentheses, which break the stack discipline.
- JsonPrinter.PrintNumber: integers of the range of `int`; other numbers are printed as floating point. The exponent of a parsed number does not overflow.
- JsonReader.ReadString: one loop over values; the measuring pass, the `switch` and the buffers are in `JsonStrings`. In `JsonReader` and `JsonParser` reading past a terminator is reading NUL.
- JsonStrings.ParseStringInPlace: what the buffers hold after an overrun is not said.
- JsonMinify.MinifyInPlace: what the buffer holds after an overrun is not said.
- `JsonPrinter.PrintArray` and the other printers return the text of the buffer they fill; the buffers themselves are not kept. Item trees are values there, and chains of items on the heap in `JsonChain` and `JsonDuplicate`.
- JsonReader.ReadArray and `JsonReader.ReadObject`: loops over values; the links between the new items are not part of them.
- `cJSON_Delete`, references between trees, and object lookup that ignores case.
- HashMap.HashMap.WorkRemoving: the one callback that removes the current entry; other callbacks only read.
- The lifetime of keys: the table keeps a copy of the key, not a pointer into the value.
- The device map in `DeviceStore` is a finite map over strings. That agrees with the prefix comparator of `inc/hash_map.h` only because every identifier has 32 hexadecimal digits, as `DeviceKeys` proves.
- `Provisioning.Database.AddG1Fmt` and the other methods: the two global tables are hash tables; what their entries point to, with the attribute and format maps of a product and the token list of a format, is a value there, so a change behind a pointer is a store. The packet bytes of a format and its offset and length are not modelled.
- Overflow of reference counts and of `unique_len`, and timestamps outside the range of `time_t`.
- Provisioning.Database.AddProduct: the endianness and the list of devices of a product.
- Provisioning.Database.DelProduct: the formats of a product are a map, visited in some order; devices are not visited.
- DeviceStore.Registry.AddDev and `DeviceStore.Registry.DelDev`: the list of devices of the product and the attribute map of the device.
- DeviceStore.Registry.UpdateDevAttr: the values of the attributes, other than the times they leave behind.
- `List.Link` and the other list operations: a node and the structure around it are one object, so `container_of` is a field.
- CliMatch.CliFindCommand: what help prints, what follows a look in front of an empty word, the descent into children, filters and callbacks.
- CliMatch.CliBuildShortest: siblings are a sequence, not linked by `next`, and the depth of the tree is a ghost parameter.
- Md5Digest.ComputeMd5: messages whose padded length does not fit a `size_t`; that the entries of the table of sines are sines is not proved, only that they give two digests of the test suite.
- Allocation failure, freeing memory, logging and packet recording.
- MQTT, sockets, threads, Lua rules, the terminal, and all command handlers.
