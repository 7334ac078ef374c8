# 50-rust-projects: a Dafny model of the exercises' logic

This project models the parts of the `50-rust-projects` exercises that compute something, and proves what they promise:

- **The expression parser of `12-ast-tree`.** This is the main part. It is a chumsky grammar with two precedence levels over a seven-variant `Expr` tree:

  ```
  sum     := product (('+' | '-') product)*
  product := unary (('*' | '/') unary)*
  unary   := '~'* int | '-'* int
  ```

  Prefix runs fold to the right and infix chains fold to the left. Whitespace is allowed around every operator and around the whole input, and the whole input must be consumed. The parser is written as recursive descent over a string and a cursor (`AstTree`). A printer `Show` is its partner. It takes a `Layout` that mirrors the tree and gives each operator its own whitespace before and after, so the whitespace may differ from one operator to the next. `AstShow.ParseShow` proves the round trip: every tree of the shape the parser builds, printed with any such layout and with any whitespace around the whole, parses back to itself. `AstShape` proves that every parsed tree has that shape. `AstFacts` derives the concrete consequences.
- **The Wordle game of `09-wordle`.** `GameState` is a class whose `MakeGuess` method is specified by a pure step function on snapshots. The module also holds the per-position hints and the wordlist validator with its ordered errors.
- **Roman numerals (`07-roman-numerals`).** `roman_to_arabic` is modelled as its trim / uppercase / lookup / windows / zip / fold pipeline. An independent rule is its partner: subtract a numeral exactly when the next one is larger.
- **Terminal styling (`03-tty-colorize`).**
  - The byte extraction from a `u32`.
  - The SGR ("Select Graphic Rendition", section 8.3.117 of ECMA-48) strings that `bold`, `italic`, `blink`, `foreground` and `background` build.
  - A decoder that reads those strings back, as the round-trip partner.
- **FizzBuzz (`01-fizzbuzz`).** The three loop variants are methods that build their lines, each proved equal to `iter_version` and to a factor-by-factor statement of the rule.
- **Vector helpers (`04-vector-operations`).** `filter_non_red_colors`, `get_all_but_first` and the slice-pattern `match` in `main`.
- **The user store of `08-cli-login`.**
  - `add_user` and `login` are methods on a class holding the user list.
  - The action dispatch on the first character.
  - `parse_users`, with the array written by `write_user_db` as its partner.

Modules: `Wrappers` holds Option and Result. `Text` holds whitespace, digits, and decimal formatting and parsing. Then come `AstTree`, `AstShape`, `AstShow`, `AstFacts`, `Wordle`, `Roman`, `Colorize`, `FizzBuzz`, `Vectors` and `Login`.

Literals follow chumsky's `text::int(10)`: a lone `0`, or a non-zero digit followed by digits. So `"007"` reads `0` and then fails on the unconsumed rest, and the input is refused (`AstFacts.LeadingZeroRejected`). The library's source is not part of this model; its behaviour is taken as documented.

## Model

| member | source | states |
|---|---|---|
| Text.Decimal | 01-fizzbuzz/src/main.rs:9-10 | `format!("{}", n)` gives a canonical digit run (no superfluous leading zero); it has one character exactly when n < 10 |
| Text.ValueOfDecimal | 12-ast-tree/src/main.rs:16 | parsing the decimal form of n gives n back |
| Text.DecimalOfValue | 12-ast-tree/src/main.rs:16 | formatting the value of a canonical digit run gives the run back |
| AstTree.SkipWhitespace | 12-ast-tree/src/main.rs:18 | padding skips a maximal run of whitespace: every character it skips is whitespace, and it stops at the end or at a non-whitespace character |
| AstTree.FoldR | 12-ast-tree/src/main.rs:23-28 | `foldr` of a run of n prefix operators puts exactly n prefix nodes above the operand and keeps its literal |
| AstTree.FoldL | 12-ast-tree/src/main.rs:40-50 | `foldl` of a non-empty list of operator/operand pairs puts the last operator at the root with the last operand as its right child, so chains associate to the left |
| AstTree.Oper | 12-ast-tree/src/main.rs:18 | `just(c).padded()` succeeds exactly when the first non-whitespace character is `c`, and then it consumes input |
| AstTree.DigitRun | 12-ast-tree/src/main.rs:16 | reads only digits and stops at the end or at a non-digit |
| AstTree.Int | 12-ast-tree/src/main.rs:16 | `text::int(10)` fails exactly when no digit is ahead; on success it returns the slice it consumed, which is canonical, and after a non-zero first digit it takes every digit that follows |
| AstTree.Number | 12-ast-tree/src/main.rs:16 | `number` yields a `Num` leaf and consumes input |
| AstTree.OperRun | 12-ast-tree/src/main.rs:20-21 | `oper(c).repeated()` counts zero occurrences exactly when it consumes nothing |
| AstTree.Prefixed | 12-ast-tree/src/main.rs:20-28 | `negate_expr` / `deref_expr` consume input when they succeed |
| AstTree.Unary | 12-ast-tree/src/main.rs:30 | `unary_expr` consumes input when it succeeds |
| AstTree.ProductOper | 12-ast-tree/src/main.rs:34-36 | the product operators yield only `Mult` or `Div` and consume input |
| AstTree.SumOper | 12-ast-tree/src/main.rs:44-46 | the sum operators yield only `Add` or `Sub` and consume input |
| AstTree.ProductTail | 12-ast-tree/src/main.rs:33-38 | the repetition never moves the cursor backwards |
| AstTree.Product | 12-ast-tree/src/main.rs:32-40 | `product_expr` consumes input when it succeeds |
| AstTree.SumTail | 12-ast-tree/src/main.rs:43-48 | the repetition never moves the cursor backwards |
| AstTree.Sum | 12-ast-tree/src/main.rs:42-50 | `sum_expr` consumes input when it succeeds |
| AstTree.Parse | 12-ast-tree/src/main.rs:52 | the whole input must parse as a padded sum and be consumed; an empty or whitespace-only input is never accepted |
| AstShape.FoldRIsChain | 12-ast-tree/src/main.rs:20-28 | `foldr` of a prefix run onto a literal gives a chain of one prefix kind around that literal |
| AstShape.UnaryShaped | 12-ast-tree/src/main.rs:20-30 | `unary_expr` yields a run of a single prefix kind around a literal |
| AstShape.ProductTailShaped | 12-ast-tree/src/main.rs:33-38 | every pair the product repetition reads is a `*`/`/` with a unary operand |
| AstShape.FoldLProductShaped | 12-ast-tree/src/main.rs:40 | `foldl` of such pairs keeps the product shape |
| AstShape.ProductShaped | 12-ast-tree/src/main.rs:32-40 | `product_expr` yields a left-leaning `Mult`/`Div` chain over unary operands |
| AstShape.SumTailShaped | 12-ast-tree/src/main.rs:43-48 | every pair the sum repetition reads is a `+`/`-` with a product operand |
| AstShape.FoldLSumShaped | 12-ast-tree/src/main.rs:50 | `foldl` of such pairs keeps the sum shape |
| AstShape.SumShaped | 12-ast-tree/src/main.rs:42-50 | `sum_expr` yields a left-leaning `Add`/`Sub` chain over product operands |
| AstShape.ChainProperties | 12-ast-tree/src/main.rs:20-28 | a prefix chain holds no `Add`/`Sub`, no binary node, and no mix of `Negative` and `Invert` |
| AstShape.ProductProperties | 12-ast-tree/src/main.rs:32-40 | a product holds no `Add`/`Sub`, associates to the left, and never mixes prefixes |
| AstShape.SumProperties | 12-ast-tree/src/main.rs:32-50 | a sum respects precedence (no `Add`/`Sub` beneath `Mult`, `Div`, `Negative` or `Invert`), associates to the left, and never mixes prefixes |
| AstShape.ParsedTreeIsWellFormed | 12-ast-tree/src/main.rs:15-53 | every tree `Parse` returns is sum-shaped, respects precedence, associates to the left (the right child of `Add`/`Sub` is never `Add`/`Sub`; the right child of `Mult`/`Div` is never binary) and never mixes prefixes |
| AstShow.NumberAt | 12-ast-tree/src/main.rs:16 | the decimal form of n, followed by no further digit, is read as `Num(n)` exactly up to its end |
| AstShow.OperRunAt | 12-ast-tree/src/main.rs:20-21 | over a printed chain, the prefix repetition counts the chain's depth and stops at its literal |
| AstShow.PrefixedAt | 12-ast-tree/src/main.rs:20-28 | a printed prefix chain is read back as that chain, up to its end |
| AstShow.UnaryAt | 12-ast-tree/src/main.rs:30 | a printed unary-shaped tree is read back by `unary_expr`, whichever prefix kind it has |
| AstShow.InvertFails | 12-ast-tree/src/main.rs:25-30 | over a printed `Negative` chain, `deref_expr` fails, so `unary_expr` falls back to `negate_expr` |
| AstShow.ProductAt | 12-ast-tree/src/main.rs:32-40 | a printed product-shaped tree, followed by nothing that continues it, is read back whole by `product_expr` |
| AstShow.SumAt | 12-ast-tree/src/main.rs:42-50 | a printed sum-shaped tree, followed by nothing that continues it, is read back whole by `sum_expr` |
| AstShow.ParseLayout | 12-ast-tree/src/main.rs:52 | whitespace, then a printed sum, then whitespace to the end parses to that sum |
| AstShow.ParseShow | 12-ast-tree/src/main.rs:15-53 | round trip: every sum-shaped tree, printed with any whitespace of its own before and after each operator and after each prefix, and with any whitespace around the whole, parses back to itself |
| AstFacts.ParseShowBare | 12-ast-tree/src/main.rs:15-53 | the unpadded printing of a sum-shaped tree parses back to it |
| AstFacts.PaddingIrrelevant | 12-ast-tree/src/main.rs:18 | whitespace of any amount, chosen separately at each operator and around the input, never changes the resulting tree |
| AstFacts.ParseLiteral | 12-ast-tree/src/main.rs:16 | a canonical digit run on its own parses to `Num` of its value |
| AstFacts.ShowChain | 12-ast-tree/src/main.rs:20-28 | k nested prefix nodes print as k prefix characters before the literal |
| AstFacts.ParsePrefixRun | 12-ast-tree/src/main.rs:20-28 | k copies of `-` (or `~`) before a literal parse to exactly k nested `Negative` (or `Invert`) nodes around the `Num` |
| AstFacts.PrecedenceExample | 12-ast-tree/src/main.rs:32-50 | `"2+3*4"` parses to `Add(2, Mult(3, 4))` |
| AstFacts.AssociativityExample | 12-ast-tree/src/main.rs:40 | `" 8 / 4 / 2 "` parses to `Div(Div(8, 4), 2)` |
| AstFacts.OneSidedPaddingExample | 12-ast-tree/src/main.rs:18 | `"2 +3"`, padded on one side of the operator only, parses to `Add(2, 3)` |
| AstFacts.UnevenPaddingExample | 12-ast-tree/src/main.rs:18 | `"1 + 2*3"`, padded around `+` but not around `*`, parses to `Add(1, Mult(2, 3))` |
| AstFacts.PrefixPaddingExample | 12-ast-tree/src/main.rs:18-22 | `"- 5*2"`, with whitespace after the prefix, parses to `Mult(Negative(5), 2)` |
| AstFacts.EmptyRejected | 12-ast-tree/src/main.rs:16 | the empty input is refused |
| AstFacts.TrailingLiteralRejected | 12-ast-tree/src/main.rs:52 | `"3 3"` is refused: the whole input must be consumed |
| AstFacts.DanglingOperatorRejected | 12-ast-tree/src/main.rs:42-52 | any printed sum followed by a binary operator is refused: the failed operand attempt rewinds and the trailing operator is left unconsumed |
| AstFacts.DanglingOperatorExample | 12-ast-tree/src/main.rs:42-52 | `"3+"` is refused |
| AstFacts.LeadingZeroRejected | 12-ast-tree/src/main.rs:16 | `"007"` is refused: the literal ends after the leading `0` |
| AstFacts.MixedPrefixRejected | 12-ast-tree/src/main.rs:20-30 | every input that starts with `~-` is refused: a term is a run of one prefix kind only |
| AstFacts.MixedPrefixExample | 12-ast-tree/src/main.rs:20-30 | `"~-5"` is refused |
| Wordle.AnyLengthDiffers | 09-wordle/src/main.rs:154 | true exactly when some word's byte length differs from the first word's |
| Wordle.HasForeignChar | 09-wordle/src/main.rs:160 | true exactly when the word has a character outside `'a'..='z'` |
| Wordle.AnyForeignWord | 09-wordle/src/main.rs:158-161 | true exactly when some word has a character outside `'a'..='z'` |
| Wordle.ValidateWordlist | 09-wordle/src/main.rs:147-166 | the checks run in order and the first failure wins: "cannot be empty" exactly for the empty list; "same size" exactly when it is non-empty and some length differs; the lowercase message exactly when the lengths agree and some character is outside `'a'..='z'`; `Ok` exactly when all three pass |
| Wordle.LowerByteLength | 09-wordle/src/main.rs:152-154 | for a word of lowercase ASCII letters, the byte length (`str::len`) equals the character count |
| Wordle.ValidWordlistIsUniformLowercase | 09-wordle/src/main.rs:147-166 | a list is valid exactly when it is non-empty, every word is lowercase ASCII, and all words have the first word's length in characters |
| Wordle.ZipHints | 09-wordle/src/main.rs:79-91 | the `zip` stops at the shorter word, and each hint compares the characters at its own position |
| Wordle.ComputeHints | 09-wordle/src/main.rs:79-91 | there are min(|guess|, |secret|) hints; at each position the hint is `Exact` exactly when the characters agree, `WrongPosition` exactly when they differ and the guessed character occurs in the secret, and `NotInWord` exactly when it does not occur |
| Wordle.AllExactIffSecret | 09-wordle/src/main.rs:79-91 | for a guess of the secret's length, every hint is `Exact` exactly when the guess is the secret |
| Wordle.Step | 09-wordle/src/main.rs:67-94 | guessing the secret sets `won`, returns `Win` and leaves `guesses` alone; an unlisted guess returns `InvalidWord` and changes nothing; a listed miss adds exactly one to `guesses` and returns its hints; `words` and `secret` never change |
| Wordle.RunKeepsWordsAndSecret | 09-wordle/src/main.rs:67-94 | any sequence of guesses leaves `words` and `secret` as they were |
| Wordle.RunCountsListedMisses | 09-wordle/src/main.rs:73-77 | after a sequence of guesses, `guesses` has grown by the number of listed guesses that missed the secret |
| Wordle.AllMissesCount | 09-wordle/src/main.rs:73-77 | when every guess is listed and not the secret, each one counts |
| Wordle.RunWinsIffSecretGuessed | 09-wordle/src/main.rs:68-71 | after a sequence of guesses, the game is won exactly when it already was or the secret was among the guesses |
| Wordle.OutOfGuessesAfterSixMisses | 09-wordle/src/main.rs:96-98 | from a fresh game, five listed misses do not exhaust the guesses and six do |
| Wordle.GameState.constructor | 09-wordle/src/main.rs:139-144 | a new game has the given words and secret, no guesses and is not won |
| Wordle.GameState.MakeGuess | 09-wordle/src/main.rs:67-94 | the new state and the outcome are exactly those `Step` gives for the old state |
| Wordle.BuildGameState | 09-wordle/src/main.rs:133-145 | an invalid list gives the validator's error; a valid one gives a new game whose words are a copy of the list, whose secret is one of them, with no guesses and not won |
| Roman.TrimStart | 07-roman-numerals/src/main.rs:30 | drops exactly a whitespace prefix and leaves a result that starts with non-whitespace, or is empty |
| Roman.TrimEnd | 07-roman-numerals/src/main.rs:30 | drops exactly a whitespace suffix and leaves a result that ends with non-whitespace, or is empty |
| Roman.MapChars | 07-roman-numerals/src/main.rs:31 | maps each character in place and keeps the length |
| Roman.Values | 07-roman-numerals/src/main.rs:19-34 | each numeral becomes its table value: I=1, V=5, X=10, L=50, C=100, D=500, M=1000 |
| Roman.Windows | 07-roman-numerals/src/main.rs:36-38 | there is one flag per adjacent pair |
| Roman.Zip | 07-roman-numerals/src/main.rs:42 | the `zip` stops at the shorter sequence |
| Roman.FoldIsSigned | 07-roman-numerals/src/main.rs:36-45 | the fold over `windows(2)` chained with `true` adds a numeral unless it is smaller than its successor, and always adds the last one |
| Roman.RomanToArabic | 07-roman-numerals/src/main.rs:18-46 | `roman_to_arabic` equals the subtract-if-smaller-than-next rule applied to the values of the trimmed, uppercased input |
| Roman.NonIncreasingIsSum | 07-roman-numerals/src/main.rs:36-44 | for a non-increasing sequence of values the result is their plain sum |
| Roman.TrimStartMap | 07-roman-numerals/src/main.rs:30-31 | trimming at the start commutes with a character map that keeps whitespace |
| Roman.TrimEndMap | 07-roman-numerals/src/main.rs:30-31 | trimming at the end commutes with a character map that keeps whitespace |
| Roman.ComposeMaps | 07-roman-numerals/src/main.rs:31 | mapping twice is mapping once by the composition |
| Roman.LowerKeepsWhitespace | 07-roman-numerals/src/main.rs:30-31 | lowercasing neither creates nor removes whitespace |
| Roman.TrimLower | 07-roman-numerals/src/main.rs:30-31 | trimming commutes with lowercasing |
| Roman.LowercaseIgnored | 07-roman-numerals/src/main.rs:31 | lowercasing an input in the domain keeps it in the domain and does not change the result |
| Roman.TrimStartPadded | 07-roman-numerals/src/main.rs:30 | whitespace before a word that starts with non-whitespace is removed exactly |
| Roman.TrimEndPadded | 07-roman-numerals/src/main.rs:30 | whitespace after a word that ends with non-whitespace is removed exactly |
| Roman.TrimAround | 07-roman-numerals/src/main.rs:30 | `trim` of a padded numeral string gives the numerals |
| Roman.TrimPadded | 07-roman-numerals/src/main.rs:30 | `trim` of any string with whitespace added at both ends is the `trim` of the string itself |
| Roman.NumeralsAreFixed | 07-roman-numerals/src/main.rs:30-31 | a string of numerals has no whitespace at either end, and uppercasing leaves it unchanged |
| Roman.PaddingIgnored | 07-roman-numerals/src/main.rs:30 | for any input, leading and trailing whitespace neither moves it into or out of the domain nor changes the result |
| Roman.BlankIsZero | 07-roman-numerals/src/main.rs:36-45 | an empty or whitespace-only string gives 0 |
| Roman.UpperNumerals | 07-roman-numerals/src/main.rs:29-34 | a string of uppercase numerals is in the domain and is its own trimmed, uppercased form |
| Roman.SingleExample | 07-roman-numerals/src/main.rs:48-51 | `"I"` is 1 |
| Roman.RepeatedExample | 07-roman-numerals/src/main.rs:53-56 | `"III"` is 3 |
| Roman.FiveExample | 07-roman-numerals/src/main.rs:58-61 | `"V"` is 5 |
| Roman.ValuesOfAllNumerals | 07-roman-numerals/src/main.rs:19-27 | `"MDCLXVI"` maps to 1000, 500, 100, 50, 10, 5, 1 |
| Roman.SumOfAllNumerals | 07-roman-numerals/src/main.rs:36-44 | the signed sum of those values is 1666 |
| Roman.AllNumeralsExample | 07-roman-numerals/src/main.rs:68-74 | `"MDCLXVI"` is 1000 + 500 + 100 + 50 + 10 + 5 + 1 |
| Roman.SubtractiveExample | 07-roman-numerals/src/main.rs:76-79 | `"IX"` is 9 |
| Roman.SixteenExample | 07-roman-numerals/src/main.rs:18-46 | `"XVI"` is 16 |
| Roman.LowerOfSixteen | 07-roman-numerals/src/main.rs:63-66 | lowercasing `"XVI"` gives `"xvi"` |
| Roman.LowercaseExample | 07-roman-numerals/src/main.rs:63-66 | `"xvi"` is 16 |
| Colorize.Extract | 03-tty-colorize/src/main.rs:54-60 | red is bits 16..23, green bits 8..15, blue bits 0..7 of the `u32`: (rgb / 2^16) mod 256, (rgb / 256) mod 256, rgb mod 256 |
| Colorize.ExtractPack | 03-tty-colorize/src/main.rs:54-60 | below 2^24, the three bytes put back together give the colour |
| Colorize.PackExtract | 03-tty-colorize/src/main.rs:54-60 | extracting from three packed bytes gives the bytes back |
| Colorize.HighByteIgnored | 03-tty-colorize/src/main.rs:55 | bits above 24 are ignored |
| Colorize.Styled | 03-tty-colorize/src/main.rs:20 | every styled string holds the text verbatim right after the opening sequence and ends with `ESC [0m` |
| Colorize.UnstyleStyled | 03-tty-colorize/src/main.rs:20 | the framing `ESC [ params m text ESC [0m` is read back into its parameters and text, for parameters without `m` |
| Colorize.FieldsJoin | 03-tty-colorize/src/main.rs:66 | parameters joined with `;` split back into the same list when none holds a `;` |
| Colorize.DecodeAttribute | 03-tty-colorize/src/main.rs:20 | a string styled with a single attribute code reads back as that code and the original text |
| Colorize.Embolden | 03-tty-colorize/src/main.rs:18-22 | `bold` asks for attribute 1 and keeps the text |
| Colorize.Italicize | 03-tty-colorize/src/main.rs:28-32 | `italic` asks for attribute 3 and keeps the text |
| Colorize.Blink | 03-tty-colorize/src/main.rs:38-46 | `blink(true)` asks for attribute 6, `blink(false)` for 5, and both keep the text |
| Colorize.DirectFields | 03-tty-colorize/src/main.rs:66 | the parameters `selector;2;r;g;b` contain no `m` and split into exactly those five fields |
| Colorize.DecodeDirect | 03-tty-colorize/src/main.rs:62-74 | a direct-colour string reads back as its selector, the three decimal bytes and the original text |
| Colorize.Foreground | 03-tty-colorize/src/main.rs:63-67 | `foreground` selects 38 with the three extracted bytes and keeps the text |
| Colorize.Background | 03-tty-colorize/src/main.rs:69-73 | `background` selects 48 with the three extracted bytes and keeps the text |
| FizzBuzz.FifteenIsLcm | 01-fizzbuzz/src/main.rs:3-8 | i is a multiple of 15 exactly when it is a multiple of both 3 and 5 |
| FizzBuzz.Label | 01-fizzbuzz/src/main.rs:49-57 | the chain that tests 15 first agrees with the rule stated factor by factor: "fizzbuzz" for both, "fizz" for 3 only, "buzz" for 5 only, the decimal number otherwise |
| FizzBuzz.IterVersion | 01-fizzbuzz/src/main.rs:46-60 | exactly 100 lines, and line k follows the rule for k + 1 |
| FizzBuzz.BasicVersion | 01-fizzbuzz/src/main.rs:1-13 | emits the same lines as `iter_version` |
| FizzBuzz.AlternateVersion | 01-fizzbuzz/src/main.rs:15-33 | building a line from separate "fizz" and "buzz" pieces emits the same lines as `iter_version` |
| FizzBuzz.MatchVersion | 01-fizzbuzz/src/main.rs:35-44 | the guarded `match` emits the same lines as `iter_version` |
| Vectors.FilterNonRedColors | 04-vector-operations/src/main.rs:42-51 | keeps only `Red`, despite the name, and exactly as many as the input holds |
| Vectors.FilterDistributes | 04-vector-operations/src/main.rs:42-51 | filtering a concatenation filters each part |
| Vectors.FilterIdempotent | 04-vector-operations/src/main.rs:42-51 | filtering twice is filtering once |
| Vectors.FilterExample | 04-vector-operations/src/main.rs:15-19 | `[Red, Green, Blue]` becomes `[Red]` |
| Vectors.GetAllButFirst | 04-vector-operations/src/main.rs:53-55 | the result is one shorter than the input and is everything after its first element |
| Vectors.Classify | 04-vector-operations/src/main.rs:23-28 | first match wins: "starts with 1" exactly when the first element is 1; "ends with 2" exactly when it is not but the last is 2; "empty vector" exactly for `[]`; "something else" otherwise |
| Vectors.ClassifyExamples | 04-vector-operations/src/main.rs:21-30 | `[1, 2]` starts with 1, `[2]` ends with 2, `[-1, 0, 1]` is something else and loses its first element to `[0, 1]` |
| Login.WithUser | 08-cli-login/src/main.rs:53-63 | a taken name leaves the list unchanged; otherwise exactly one user with the given hash is appended and the earlier entries are untouched |
| Login.WithUserKeepsNamesDistinct | 08-cli-login/src/main.rs:53-63 | pairwise-distinct names stay distinct after adding |
| Login.AddedUserCanLogIn | 08-cli-login/src/main.rs:35-66 | a newly added user can log in with their password, and no other name's logins change |
| Login.TakenNameChangesNothing | 08-cli-login/src/main.rs:53-58 | adding a taken name changes no login |
| Login.UserDb.constructor | 08-cli-login/src/main.rs:16 | the store starts from the parsed list |
| Login.UserDb.AddUser | 08-cli-login/src/main.rs:49-66 | reports success exactly when the name was free; the new list is the old one with the user added, storing the hash of the password and never the password |
| Login.UserDb.Login | 08-cli-login/src/main.rs:35-47 | succeeds exactly when some stored user has the name and the hash of the password |
| Login.Dispatch | 08-cli-login/src/main.rs:21-31 | `l` logs in, `a` adds a user, `q` quits; every other first character, and the empty line, is an invalid action |
| Login.ParseUsers | 08-cli-login/src/main.rs:91-104 | `None` exactly for non-array JSON; for an array, one user per element, in order, built from the element's `username` and `hash` |
| Login.UserToJson | 08-cli-login/src/main.rs:128-131 | the object pushed for a user holds its name under `username` and its hash under `hash` |
| Login.UsersToJson | 08-cli-login/src/main.rs:124-135 | the array holds one element per user, in order, each carrying that user's name and hash |
| Login.ParseWrittenUsers | 08-cli-login/src/main.rs:124-135 | reading back the array `write_user_db` builds gives the same users |

## Left out

- Input and output: every `main`, `prompt`, stdin, file access and printing. The Wordle loop that keeps reading after a win is part of that flow. `print_squares` and `slice_print` in `04-vector-operations` are print loops, and the `pop` before them only feeds those prints.
- `12-ast-tree`: chumsky's error values and positions. A failure is `None`. The library itself is not part of this model; `text::int(10)`, `padded` and `repeated` are modelled by their documented behaviour.
- `12-ast-tree`: `Num(f64)` becomes `Num(nat)`. Float parsing of a digit run is its exact value, so no rounding of large literals is modelled.
- `09-wordle`: the random choice of the secret is the parameter `pick`, and the secret is `words[pick % |words|]`.
- `09-wordle`: `format_outcome`, `play` and the coloured squares. They are presentation, and they rely on Unicode `to_uppercase`.
- `Wordle.Step`: `guesses` is unbounded, so the `usize` overflow after 2^64 misses is not modelled.
- `Roman.RomanToArabic`: the result is an unbounded integer. The `i32` overflow of very long inputs is not modelled. Input outside the seven numerals is a precondition, because the program panics on `unwrap` there.
- `Roman.UpperChar`: `to_uppercase` is modelled for ASCII letters and for the dotless `ı`, which uppercases to `I`. The other Unicode case mappings, including those that change the length, are not modelled.
- `04-vector-operations`: the `x * x` overflow in `print_squares` is not modelled, because the output is never used.
- `08-cli-login`: SHA-512 is the function parameter `hash`.
- `08-cli-login`: the `json` crate is represented by a small JSON datatype. What `user["username"].to_string()` yields is the parameter `field`; `Login.StringField` gives the string for a string member and `"null"` otherwise.
- `08-cli-login`: the serialisation in `write_user_db` is modelled only up to the array it builds (`Login.UsersToJson`). `open_file` is left out.
- `Colorize.Decode`: the decoder is the partner of the styling functions, not code of the program. It reads only the strings they produce. Its search helpers `Colorize.Find` and `Colorize.FindFirst` have no counterpart in the program.
- Vectors.GetAllButFirst: requires a non-empty vector, because `nums.get(1..).unwrap()` panics on an empty one; the panic itself is not modelled.
