# Verified model of rpeek's query compiler and bounded-memory tools

rpeek lets a client look at a host: read files inside a jail, list, search and tail them, read
the journal, and run read-only database queries written in a small SELECT-only language. This
project models the parts of it with the most logic, and proves what they are for.

**The query compiler** (`internal/sqlq`). A scanner, a recursive-descent parser, a name resolver
and a translator. The loops and the objects with mutable fields are methods and classes; each is
proved to compute a specification function, and the theorems are about those functions.

| files | content |
|---|---|
| `Chars`, `Numbers`, `Tokens`, `Ast`, `Common` | data |
| `Lexer`, `Tokenisation` | the scanner; what a tokenisation is, independently of scanning |
| `Grammar`, `ParseFns`, `ParseExact`, `Parser` | the grammar as a derivation relation; parsing; both agree |
| `Language`, `WellFormed`, `Printer` | the accepted language; the invariant of accepted queries; printing and the round trip |
| `Catalog`, `Resolver`, `Resolution`, `ResolutionLaws` | resolution; what references denote; its laws |
| `Translate`, `Semantics`, `Literals`, `SqlTool` | the nodes built, their three-valued meaning, the values bound, the whole pipeline |

**The bounded-memory tools and the server** (`internal/tools`, `internal/server`). Each is a
frugal form that has to agree with a simple one, or a protocol with an invariant.

| files | content |
|---|---|
| `Utf8`, `Capping` | output caps on character boundaries; the two caps of the journal tool |
| `Names`, `ListTool` | the bounded max-heap of the list tool against sort-then-take |
| `LineScanner`, `GrepTool`, `TailTool` | line scanning; incremental caps; the ring over the end of a file |
| `GrepLaws`, `TailLaws` | exactly when the results are those of all lines, and of the last lines |
| `PathNames`, `FileTree`, `Jail` | path spelling, symbolic links, jail membership |
| `Server` | accept loop, handlers and cancellation as an interleaved step system |
| `Table` | the aligned text table of query results |

## What the main theorems say

1. *Scanning is exact.* A text is scanned into `ts` exactly when `ts` is a tokenisation of it
   (white space and longest-match spellings), so tokenisations are unique; rendering and
   re-scanning is stable; any text quoted with its quotes doubled decodes to itself.
2. *Parsing is exact.* A token stream is accepted with result `q` exactly when the grammar derives
   `q`; hence the grammar is unambiguous, precedence and associativity included. Together with 1, a
   text is accepted with result `q` exactly when it means `q`.
3. *Printing round-trips.* The text of any well-formed query parses to that query; every accepted
   text yields a well-formed query.
4. *Resolution is exact.* It succeeds exactly when every table is known, binding names are
   distinct and every reference denotes exactly one column or, in GROUP BY and ORDER BY, an alias.
   It is idempotent, blind to letter case and indifferent to the order of the tables.
5. *Compilation preserves meaning.* In three-valued logic, every ON and the WHERE handed to the
   builder have, on every row with NULLs, the truth value of the source text's condition; and every
   selected item is the aggregate it names on the column it denotes.
6. *Literals are conserved.* The values bound are the decoded literals of the source text in order;
   only LIMIT can differ, and exactly when the row bound replaces or adds it.
7. *The frugal forms agree with the simple ones:* the heap with sort-then-take, the ring with
   the last lines scanned, the incremental caps with cap-at-the-end, two caps with one.
8. *The jail answers a path exactly when* links lead there and it is at or below a root.
9. *The server* never handles more than its maximum, accounts for every connection, and once the
   listener is closed returns after boundedly many steps with every connection closed once.

Two properties are not met on every input; each has its exact condition and failing inputs.

- *Tail shows the last `n` lines of the file.* The output cap keeps the beginning of the text, so
  the newest lines are the ones it removes; a window of 8 MiB may hold fewer lines than asked for;
  and a long file whose size is not reported is read from its start. The output is the last `n`
  lines exactly when no line read is too long, the file fits the window or the window has more
  than `n` lines, the text is within the cap, and the window reaches the end of the file.
- *Grep finds the matches among all lines.* The scan of a file ends silently at a line of 1 MiB or
  more. All matches are found, for every pattern, exactly when no file has such a line.

## Modelling decisions

- A query text is a list of bytes, one `char` each. Letter case is ASCII, which is what
  `strings.ToLower` does on the identifiers the lookups are made with. Catalog names are taken to
  be ASCII too: a name outside ASCII whose Unicode lower case is ASCII is not modelled.
- `strconv.ParseFloat` is a parameter, any partial function from spellings to reals; `ParseInt` is
  modelled exactly for 64 bits. Negative zero is therefore not told apart from zero.
- The builder is a datatype of the calls made to it. What a database contributes to the meaning of
  a condition is the parameter `Collation`: an asymmetric order of non-null values, a pattern
  match, and the outcome of equality with NULL or a truth value, of which inequality is the
  three-valued negation.
- A row gives a value for every pair of a binding name and a column name; conditions handed to the
  builder read it by the parts of their identifiers, source conditions by what references denote.
- Aggregates and comparison operators stay strings as in the source, so that the default branches
  of `aggExpr`, `compareExpr` and `negateOp` exist; they are shown unreachable. Join kinds and
  logical operators are closed enumerations.
- The published grammar and the code differ in three points, and the model follows the code: a
  table alias may be written with AS; only COUNT takes a star; a plain column may have an alias
  too. LIMIT and OFFSET accept any spelling whose 64-bit value is not negative, such as `+5`.
- The pointer to a query that the row limit and the resolver write through is an object with one
  field. When resolution fails its content is unspecified; the tool discards it.
- A Go error is `None`; a `sort.Strings` call is an insertion sort proved to be the one sorted
  arrangement.
- The steps of the server are those of the loop, of the handlers' deferred calls in their order,
  and of cancellation; what a handler does for its request is one step that may also panic.
- Paths are lists of names; the spelling used by the containment test is modelled as text. The
  walk along symbolic links follows `filepath.EvalSymlinks`, with its bound of 255 links.

## Model

| member | source | states |
|---|---|---|
| Chars.CaseExactly | internal/sqlq/catalog.go:207-248 | two spellings agree in lower case, and in upper case, exactly when they differ in the case of ASCII letters only |
| Chars.ClassesExactly | internal/sqlq/lexer.go:253-261 | white space, digits, letters and name characters are the ones listed |
| Numbers.ParseIntOfIntText | internal/sqlq/lexer.go:239-250 | every 64-bit value, spelled in decimal, is read back as itself |
| Numbers.ParseNumberOfInt | internal/sqlq/lexer.go:239-250 | a spelling the integer parser accepts is never read as a float |
| Numbers.PlaceValue | internal/sqlq/lexer.go:239-244 | digits have the value of their places |
| Numbers.IntegerExactly | internal/sqlq/lexer.go:239-244 | an integer is its digits, negated after a minus sign, whatever the leading zeros |
| Numbers.ParseNumberExactly | internal/sqlq/lexer.go:239-250 | a spelling stands for its integer if that has 64 bits; otherwise, as with a point or an exponent, for what the float parser gives, and is rejected exactly when that rejects it |
| Tokens.SpellingsExactly | internal/sqlq/lexer.go:52-60 | each reserved word is spelled as in the table |
| Tokens.KeywordOf | internal/sqlq/lexer.go:52-60 | at most one reserved word has a given spelling, and it is found |
| Lexer.SkipDigits | internal/sqlq/lexer.go:176-179 | the digit loop stops at the end of the run |
| Lexer.LexMantissa | internal/sqlq/lexer.go:169-189 | sign, digits and point: accepted up to there only with a digit |
| Lexer.LexExponent | internal/sqlq/lexer.go:190-203 | an exponent mark needs a digit after its sign |
| Lexer.LexNumber | internal/sqlq/lexer.go:169-209 | the loop finds the number literal, or fails when a letter or digit follows |
| Lexer.LexString | internal/sqlq/lexer.go:216-235 | the loop decodes doubled quotes up to the closing quote |
| Lexer.LexWord | internal/sqlq/lexer.go:74-84 | the word loop stops at the first character that cannot continue it |
| Lexer.LexSymbol | internal/sqlq/lexer.go:113-158 | punctuation and operators, the longest spelling first, anything else an error |
| Lexer.LexToken | internal/sqlq/lexer.go:70-160 | the case taken for each first character gives the token and its end |
| Lexer.Lex | internal/sqlq/lexer.go:65-164 | the index loop computes the scan of the whole text, errors included |
| Tokenisation.KeywordExactly | internal/sqlq/lexer.go:74-84 | a word is the reserved word it spells in any letter case, or else a name |
| Tokenisation.NumberEndSound | internal/sqlq/lexer.go:169-209 | what is taken for a number has the shape of one, and none longer starts there |
| Tokenisation.NumberEndComplete | internal/sqlq/lexer.go:169-209 | whatever has that shape and stops there is taken |
| Tokenisation.StringFromSound | internal/sqlq/lexer.go:216-235 | a decoded string, its quotes doubled again, is the text between the quotes |
| Tokenisation.StringFromComplete | internal/sqlq/lexer.go:216-235 | any text with its quotes doubled is decoded to itself |
| Tokenisation.StepComplete | internal/sqlq/lexer.go:65-164 | every spelling a token may have at a position is recognised as that token |
| Tokenisation.LexExact | internal/sqlq/lexer.go:65-164 | the scan is `ts` exactly when the text is white space interleaved with the spellings of `ts` at their positions |
| Tokenisation.TokensInOrder | internal/sqlq/lexer.go:65-164 | positions strictly increase; EOF occurs once, last, at the end |
| Tokenisation.ScanRender | internal/sqlq/lexer.go:65-164 | spellings joined with spaces scan to the same kinds and texts |
| Tokenisation.RescanStable | internal/sqlq/lexer.go:65-164 | rendering the tokens of any scanned text and re-scanning changes no token |
| Tokenisation.QuotedTextDecodes | internal/sqlq/lexer.go:216-235 | any text at all, quoted, scans to the one literal with that text |
| Parser.Parser.Next | internal/sqlq/parser.go:46-52 | the cursor never passes EOF and stays in range |
| Parser.Parser.ParseColumn | internal/sqlq/parser.go:229-243 | a name, or two with a dot, and the cursor just past them; otherwise failure |
| Parser.Parser.ParseValue | internal/sqlq/parser.go:495-520 | the literal a token stands for, failing on numbers out of range |
| Parser.Parser.ParseTest | internal/sqlq/parser.go:419-492 | every predicate form after its column, with its failures |
| Parser.Parser.ParsePredicate | internal/sqlq/parser.go:414-492 | a column and its test, the cursor just past them; otherwise failure |
| Parser.Parser.ParseFactor | internal/sqlq/parser.go:398-411 | a parenthesised condition or a predicate |
| Parser.Parser.ParseNotFactor | internal/sqlq/parser.go:386-395 | at most one NOT before a factor |
| Parser.Parser.ParseAndTerm | internal/sqlq/parser.go:370-383 | the loop folds factors to the left |
| Parser.Parser.ParseCondition | internal/sqlq/parser.go:354-367 | the loop folds terms to the left |
| Parser.Parser.ParseSelectItem | internal/sqlq/parser.go:186-226 | aggregates, the star of COUNT, and AS |
| Parser.Parser.ParseSelectList | internal/sqlq/parser.go:170-183 | the comma loop collects every item |
| Parser.Parser.ParseColumnList | internal/sqlq/parser.go:246-259 | the comma loop collects every column |
| Parser.Parser.ParseOrderList | internal/sqlq/parser.go:262-282 | the comma loop collects every column and direction |
| Parser.Parser.ParseTableRef | internal/sqlq/parser.go:285-301 | a table and its alias, with or without AS |
| Parser.Parser.ParseJoin | internal/sqlq/parser.go:309-351 | the join kind, its table and its ON condition |
| Parser.Parser.ParseNonNegInt | internal/sqlq/parser.go:523-534 | a 64-bit integer literal that is not negative |
| Parser.Parser.ParseQuery | internal/sqlq/parser.go:87-167 | the query filled clause by clause is the one the parse function gives |
| Parser.Parse | internal/sqlq/parser.go:17-31 | scanning, parsing and the check for trailing tokens |
| ParseExact.ConditionSound | internal/sqlq/parser.go:354-411 | what is parsed as a condition is derived as one |
| ParseExact.ConditionComplete | internal/sqlq/parser.go:354-411 | any derived condition is parsed, left-associated, AND before OR |
| ParseExact.PredicateComplete | internal/sqlq/parser.go:414-492 | any derived predicate is parsed; the AND of BETWEEN is not the connective |
| ParseExact.QuerySound | internal/sqlq/parser.go:87-167 | an accepted query is derived clause by clause |
| ParseExact.QueryComplete | internal/sqlq/parser.go:87-167 | a derived query is accepted, whatever clauses it has |
| ParseExact.ParseExactly | internal/sqlq/parser.go:17-167 | a token stream is accepted with result `q` exactly when the grammar derives `q` |
| ParseExact.Unambiguous | internal/tools/tool_sql.go:37-56 | no token stream derives two queries |
| Language.AcceptedExactly | internal/sqlq/parser.go:17-31 | a text is accepted with result `q` exactly when it has a tokenisation from which the grammar derives `q` |
| WellFormed.AcceptedIsWf | internal/sqlq/ast.go:8-225 | every accepted query has non-empty lists, COUNT-only stars, known operators, and OFFSET only with LIMIT |
| Printer.PrintThenParse | internal/sqlq/parser.go:17-31 | the printed text of any well-formed query parses to that query |
| Printer.PrintInjective | internal/sqlq/parser.go:17-31 | two well-formed queries with the same text are equal |
| Printer.AcceptedReparses | internal/sqlq/parser.go:17-31 | the printed form of an accepted text parses to the same query |
| Printer.Int64IsWf | internal/sqlq/lexer.go:239-250 | every 64-bit number, negative ones included, has a literal |
| Catalog.BuildCanonMap | internal/sqlq/catalog.go:189-195 | the first spelling of each lower-case name is kept |
| Resolver.Resolver.Bind | internal/sqlq/catalog.go:163-201 | fails exactly on an unknown table, a bad name or a taken binding name; else adds one binding |
| Resolver.Resolver.CollectAliases | internal/sqlq/catalog.go:78-84 | the alias map finds the last alias of each lower-case name |
| Resolver.Resolver.ResolveCol | internal/sqlq/catalog.go:207-248 | the loop's lookup, unknown and ambiguous told apart |
| Resolver.Resolver.RewriteCondition | internal/sqlq/catalog.go:251-310 | the condition with every reference replaced by what it resolves to |
| Resolver.BindTables | internal/sqlq/catalog.go:66-76 | all tables in order, or failure when they are not bindable |
| Resolver.Resolve | internal/sqlq/catalog.go:53-135 | succeeds exactly when everything can be resolved, and then the query is the resolved one |
| Resolution.LookupExact | internal/sqlq/catalog.go:207-248 | a reference resolves to `d` exactly when it denotes `d`: an alias first where allowed, else the one candidate table's column |
| Resolution.RefersToColumn | internal/sqlq/catalog.go:207-248 | a reference denotes the first column of its name, in any letter case, of its only candidate table, under that table's binding name |
| Resolution.LookupFailure | internal/sqlq/catalog.go:207-248 | ambiguous exactly with two candidate tables, unknown exactly with none |
| Resolution.ResolvesExact | internal/sqlq/catalog.go:53-135 | the resolved query is the one in which every reference is replaced by what it denotes |
| Resolution.ResolvableExact | internal/sqlq/catalog.go:53-135 | success exactly when tables are known, binding names distinct and all references denote |
| Resolution.ResolutionUnique | internal/sqlq/catalog.go:53-135 | a query has at most one resolution |
| ResolutionLaws.ResolveIdempotent | internal/sqlq/catalog.go:53-135 | resolving a resolved query changes nothing |
| ResolutionLaws.ResolveIgnoresCase | internal/sqlq/catalog.go:53-135 | queries that differ in the case of references both fail or resolve alike |
| ResolutionLaws.ReorderedBindable | internal/sqlq/catalog.go:163-201 | tables bindable in one order are bindable in every order |
| ResolutionLaws.TableOrderIrrelevant | internal/sqlq/catalog.go:207-248 | a reference denotes the same column whatever the order of the tables |
| ResolutionLaws.TableOrderOfCondition | internal/sqlq/catalog.go:251-310 | a condition is rewritten to the same condition whatever the order of the tables |
| ResolutionLaws.ReorderedResolvable | internal/sqlq/catalog.go:53-135 | a query can be resolved in every order of its tables or in none |
| ResolutionLaws.DenotedIsReal | internal/sqlq/catalog.go:207-248 | what a reference resolves to is a real column of one bound table, or an alias |
| ResolutionLaws.ResolveKeepsWf | internal/sqlq/catalog.go:53-135 | resolution keeps the invariant of accepted queries |
| Translate.Translate | internal/sqlq/translate.go:20-91 | what every clause hands to the builder, the items of a clause in their order, and which clauses hand it nothing |
| Translate.FillGoValues | internal/sqlq/translate.go:266-272 | the loop converts every value in place |
| Translate.BuildNode | internal/sqlq/translate.go:161-210 | the recursion over conditions builds the node the meaning theorems are about |
| Semantics.Kleene | internal/sqlq/translate.go:161-176 | the connectives are minimum, maximum and sign change over no, unknown, yes |
| Semantics.NegatedOperator | internal/sqlq/translate.go:246-263 | each of the seven operators negates to one of them with the opposite meaning |
| Semantics.OperatorNode | internal/sqlq/translate.go:213-243 | the node chosen for an operator means that operator |
| Semantics.MemberIsAnyEqual | internal/sqlq/translate.go:181-187 | membership is a disjunction of equalities, and NOT IN a conjunction of inequalities, NULLs included |
| Semantics.BuildCondMeaning | internal/sqlq/translate.go:161-210 | the node of a condition, or of its negation, has the condition's truth value, or its three-valued negation |
| Semantics.BuildCondShape | internal/sqlq/translate.go:161-210 | connectives keep their places; in each predicate's place stands it or its negation, with its column and operands |
| Semantics.RowIsReadable | internal/sqlq/catalog.go:207-248 | every row of values by binding and column name can be read through the references of a text |
| Semantics.RewriteMeaning | internal/sqlq/catalog.go:251-310 | rewriting references does not change the truth value |
| Semantics.CompiledMeaning | internal/sqlq/translate.go:161-263 | resolution followed by translation keeps the meaning of a condition |
| Semantics.CompiledQueryMeaning | internal/sqlq/translate.go:20-91 | every ON and the WHERE of the dataset keep the rows of their source conditions |
| Literals.LiteralStands | internal/sqlq/parser.go:495-520 | a token is read as a value exactly when it stands for it, said of its text and the float parser alone |
| Literals.CountStands | internal/sqlq/parser.go:523-534 | a token is read as a row count exactly when it is a 64-bit integer that is not negative |
| Literals.TokenLiteralsStand | internal/sqlq/parser.go:495-534 | the literals of a token list are the values its literal tokens stand for, at all their positions in order |
| Literals.BuildCondKeepsLiterals | internal/sqlq/translate.go:161-272 | pushing negations down loses, adds and reorders no literal |
| Literals.ResolveKeepsLiterals | internal/sqlq/catalog.go:53-135 | nor does resolution |
| Literals.TranslateKeepsLiterals | internal/sqlq/translate.go:20-91 | the dataset's values are the query's literals: ONs, WHERE, LIMIT, OFFSET |
| Literals.QueryTokens | internal/sqlq/parser.go:495-534 | the literals of an accepted query are the decoded literal tokens in order, the NULL of IS NULL excepted |
| SqlTool.ApplyRowLimit | internal/tools/tool_sql.go:149-160 | only the limit is written; it is imposed exactly when it is not the client's own |
| SqlTool.Compile | internal/tools/tool_sql.go:97-144 | the pipeline succeeds exactly when the text is accepted and its bounded query resolvable |
| SqlTool.CompiledLiterals | internal/tools/tool_sql.go:97-160 | the values bound are the text's literals in order, with the effective limit for LIMIT |
| SqlTool.CompiledLiteralsExact | internal/tools/tool_sql.go:149-160 | nothing is changed exactly when the text names a limit within bounds |
| SqlTool.CompiledTextMeaning | internal/tools/tool_sql.go:97-144 | on every row of values by binding and column name, the conditions handed to the builder have the truth values of the text's conditions, each reference read as the column it denotes |
| SqlTool.AggregatesExactly | internal/tools/tool_sql.go:46-46 | the aggregates are the five of the published grammar |
| SqlTool.AggExprKeepsName | internal/sqlq/translate.go:139-155 | no aggregate falls back to COUNT |
| SqlTool.CompiledAggregates | internal/sqlq/translate.go:119-155 | every item of a well-formed query calls the aggregate it names on the column it names; only COUNT gets a star |
| SqlTool.CompiledIsWf | internal/tools/tool_sql.go:97-144 | what is translated for an accepted text keeps the invariant, so the branches for unknown operators and aggregates are never taken |
| SqlTool.CompiledSelect | internal/tools/tool_sql.go:97-144 | from text to dataset: exactly the text's items are selected, each the aggregate it names on the column it denotes, qualified by its table, under its alias |
| SqlTool.CompiledClauses | internal/tools/tool_sql.go:97-144 | tables, aliases, join kinds, keys, directions, limit and offset of the text reach the builder, columns qualified by their tables and select aliases unqualified |
| SqlTool.CompiledValues | internal/tools/tool_sql.go:97-160 | the values bound are what the literal tokens of the text stand for, one for each in order, but for a limit added or replaced |
| SqlTool.RowsTruncatedExactly | internal/tools/tool_sql.go:137-143 | the flag is set whenever an imposed bound withholds rows, and with none withheld exactly when their number is the bound |
| Utf8.EncodedIsValid | internal/tools/util.go:46-50 | every sequence of encoded code points is valid text |
| Utf8.ValidIsEncoded | internal/tools/util.go:46-50 | valid text is a sequence of encoded code points |
| Utf8.ValidPrefix | internal/tools/util.go:46-50 | in valid UTF-8 the valid prefixes end exactly at character starts |
| Utf8.StartNearby | internal/tools/util.go:46-50 | a character starts at most three bytes before any position |
| Capping.CapOutput | internal/tools/util.go:42-51 | the backward loop finds the cut |
| Capping.CappedIsLongestPrefix | internal/tools/util.go:42-51 | the output is the longest valid prefix within the cap, at most three bytes short, flagged exactly when something is missing |
| Capping.CappedOfLonger | internal/tools/util.go:42-51 | the cap depends on no byte past the first it excludes |
| Capping.ClampLimit | internal/tools/util.go:55-63 | an allowed request is kept, none selects the default, nothing exceeds the maximum |
| Capping.CapWriter.Write | internal/tools/util.go:27-38 | for every chunking the writer holds exactly the first bytes within its capacity, and knows whether any were dropped |
| Capping.RunJournalctl | internal/tools/tool_journal.go:107-127 | what is collected of the stream, with the capacity's machine addition |
| Capping.TwoCaps | internal/tools/tool_journal.go:85-112 | capping what a cap four bytes larger kept is capping the whole stream, flag included, even when the addition wraps |
| Capping.Journal | internal/tools/tool_journal.go:85-127 | the tool's output and flag are those of buffering everything and capping once |
| Names.LessExactly | internal/tools/tool_list.go:104-104 | a name is less exactly when at the first difference it ends or has the smaller byte |
| Names.SortedExactly | internal/tools/tool_list.go:124-125 | sorted means in dictionary order |
| Names.SortedUnique | internal/tools/tool_list.go:124-125 | a multiset of names has one sorted arrangement |
| Names.SortSplits | internal/tools/tool_list.go:85-89 | sorting takes the smaller part first |
| ListTool.NameHeap.Push | internal/tools/tool_list.go:103-103 | the heap order is kept and exactly the new name added |
| ListTool.NameHeap.ReplaceRoot | internal/tools/tool_list.go:107-108 | the heap order is restored and exactly the largest name replaced |
| ListTool.NameHeap.Fix | internal/tools/tool_list.go:108-108 | sifting from the root restores the order and keeps all names |
| ListTool.RootIsLargest | internal/tools/tool_list.go:154-158 | the root of the heap is the largest name |
| ListTool.HiddenExactly | internal/tools/tool_list.go:98-98 | hidden names are those that start with a dot |
| ListTool.VisibleByName | internal/tools/tool_list.go:96-100 | hidden names are left out unless all are asked for, the others stay in their order |
| ListTool.LinesByName | internal/tools/tool_list.go:127-142 | the lines stand in the order of the names, none for a name that is gone |
| ListTool.Scan | internal/tools/tool_list.go:89-125 | for every order and batching, the first `limit` of all visible names in dictionary order; truncated exactly when there are more |
| ListTool.List | internal/tools/tool_list.go:79-146 | one line for each such name that still exists, capped once |
| LineScanner.Scanner.Scan | internal/tools/tool_tail.go:93-98 | yields the lines one by one up to the first that is too long, which it remembers |
| LineScanner.LinesOfText | internal/tools/tool_tail.go:93-111 | the lines of a text are its newline-terminated pieces and its non-empty rest, without a trailing carriage return |
| LineScanner.LinesFromMiddle | internal/tools/tool_tail.go:80-105 | reading from the middle and dropping the first line gives the last lines of the whole text |
| GrepTool.DecimalExactly | internal/tools/tool_grep.go:137-137 | the line number is written in decimal without leading zeros |
| GrepTool.FormatExactly | internal/tools/tool_grep.go:137-137 | path, colon, line number, colon, space, text, newline, each at its place |
| GrepTool.Search.ScanFile | internal/tools/tool_grep.go:110-142 | the scan has met all the file's matches, or a prefix of them when a cap stopped it |
| GrepTool.Search.Found | internal/tools/tool_grep.go:125-139 | a match is recorded unless a cap is reached, and then flags truncation |
| GrepTool.Search.BufferBounded | internal/tools/tool_grep.go:130-136 | the live buffer stays below the cap plus one formatted match |
| GrepTool.FullIsReference | internal/tools/tool_grep.go:126-136 | stopping at a cap gives the output and flag of collecting everything |
| GrepTool.Grep | internal/tools/tool_grep.go:91-171 | output and flag are those of collecting every match, taking the first and capping the text |
| GrepLaws.MissedExactly | internal/tools/tool_grep.go:110-142 | a file's scan misses a match exactly when one stands at or after a line too long for the scanner, whose error is ignored |
| GrepLaws.SearchExactly | internal/tools/tool_grep.go:110-165 | every pattern finds all its matches among all lines exactly when no line of any file is too long |
| GrepLaws.FittingResult | internal/tools/tool_grep.go:91-171 | output and flag are then those of the matches among all lines |
| GrepLaws.LongLineMissed | internal/tools/tool_grep.go:115-142 | a concrete file with one matching line of 1 MiB: nothing is shown and nothing flagged |
| TailTool.Fill | internal/tools/tool_tail.go:96-111 | the ring holds the last scanned lines at their places; a line too long fails |
| TailTool.RingsNext | internal/tools/tool_tail.go:106-107 | overwriting the oldest place keeps the last lines in the ring |
| TailTool.Drain | internal/tools/tool_tail.go:113-122 | the lines come out oldest first, each with its newline |
| TailTool.LineCount | internal/tools/tool_tail.go:72-72 | 100 lines by default, 10000 at most |
| TailTool.Tail | internal/tools/tool_tail.go:72-128 | the loops give the last requested lines of what is scanned, capped; an error exactly when a line is too long |
| TailLaws.ChosenIsSuffix | internal/tools/tool_tail.go:80-122 | when the window reaches the end, the lines chosen are the last of the whole file, and the last `n` of it when the window holds enough |
| TailLaws.ShowsExactly | internal/tools/tool_tail.go:72-128 | when the window reaches the end, the output is the last `n` lines of the whole file exactly when no line read is too long, the window holds enough lines, and their text is within the cap |
| TailLaws.ReportedWindow | internal/tools/tool_tail.go:80-93 | of a file whose size is reported the last 8 MiB are read |
| TailLaws.ReportedExactly | internal/tools/tool_tail.go:72-128 | the same for every file whose size is reported, nothing else assumed: it fits the window or the window has more than `n` lines, and so on |
| TailLaws.WindowExactly | internal/tools/tool_tail.go:80-95 | every request the other conditions allow is answered right, for all files of a length, exactly when the window reaches their end |
| TailLaws.NewestLineLost | internal/tools/tool_tail.go:124-127 | a concrete file whose newest line the output cap removes |
| TailLaws.LongRequestCutShort | internal/tools/tool_tail.go:80-122 | a 9 MiB file of 9216 lines of which 8191 are shown when 10000 are asked for |
| TailLaws.LateLineMissed | internal/tools/tool_tail.go:80-95 | a file of any length beyond the window whose last line is not shown |
| PathNames.WithinIsPrefix | internal/tools/jail.go:116-130 | the separator-aware test on spellings holds exactly when the root's names are a prefix, the root "/" included |
| PathNames.CleanedLast | internal/tools/jail.go:72-79 | a last ".." removes a name, and nothing at the root; an empty part or "." changes nothing; a name is appended |
| PathNames.SplitJoins | internal/tools/jail.go:72-79 | the parts joined by separators are the spelling |
| PathNames.CleanedSpelling | internal/tools/jail.go:72-79 | cleaning the spelling of a clean path gives it back |
| FileTree.CleanedLeadsThere | internal/tools/jail.go:72-82 | in a tree without links, where the parts of a request lead the cleaned path leads too |
| FileTree.WithoutLinksExactly | internal/tools/jail.go:136-143 | in a tree without links a path stands for itself exactly when it exists, and is reported absent exactly when a name is missing from a directory of it |
| FileTree.AbsoluteLink | internal/tools/jail.go:35-38 | a link to an absolute path stands for that path |
| FileTree.RelativeLink | internal/tools/jail.go:35-38 | a link to a relative path stands for it taken from the link's directory |
| FileTree.TooManyLinks | internal/tools/jail.go:35-38 | after 255 links no other is followed |
| FileTree.LoopFails | internal/tools/jail.go:136-143 | a link to itself is an error, not an absence |
| FileTree.WalkEndsPhysical | internal/tools/jail.go:137-139 | a resolved path exists and is no link |
| FileTree.WalkInTwo | internal/tools/jail.go:150-159 | resolving a path is resolving its prefix and going on from there |
| FileTree.PhysicalIsFixed | internal/tools/jail.go:35-38 | a resolved path resolves to itself |
| Jail.RelativeRequest | internal/tools/jail.go:72-79 | a relative request is the working directory followed by its names |
| Jail.AbsoluteRequest | internal/tools/jail.go:72-79 | an absolute request is its own names, whatever the working directory |
| Jail.ResolveExisting | internal/tools/jail.go:136-163 | the longest existing prefix resolved and the missing names after it, in order; other errors fail |
| Jail.JailSet.Contains | internal/tools/jail.go:116-130 | some root is a prefix, name by name |
| Jail.JailSet.Resolve | internal/tools/jail.go:64-93 | which requests are rejected, outside, absent or answered |
| Jail.JailSet.ResolveFile | internal/tools/jail.go:97-110 | answered exactly when links lead to a regular file at or below a root |
| Jail.NewJailSet | internal/tools/jail.go:25-49 | fails exactly when there is no root or one does not resolve to a directory |
| Jail.JudgementIsRight | internal/tools/jail.go:64-93 | a path is answered exactly when links lead there and it is inside; a path reported absent is, and its existing part is inside |
| Jail.AnswerIsStable | internal/tools/jail.go:64-93 | an answered path is answered again for its own spelling |
| Server.StepKeepsAccounts | internal/server/server.go:80-137 | every step keeps slots, group, closes and the carried connection in balance |
| Server.RunKeepsAccounts | internal/server/server.go:80-158 | so does every run, with the delay matching the failures in a row |
| Server.HandledBounded | internal/server/server.go:86-133 | never more than `maxConns` inside the handler, nor more than one other open |
| Server.AcceptedAccounted | internal/server/server.go:98-137 | accepted = carried + dropped + live + finished |
| Server.HandlersUnblocked | internal/server/server.go:128-133 | giving a slot back never waits, and the group never goes below zero |
| Server.ReturnedIsQuiet | internal/server/server.go:80-137 | on return no handler is left and every connection was closed once, at most one by being dropped |
| Server.StepLowersRank | internal/server/server.go:80-158 | once the listener is closed every step lowers a rank |
| Server.NoDeadlock | internal/server/server.go:80-137 | once cancelled some step can be taken until Serve has returned |
| Server.ServeReturns | internal/server/server.go:80-137 | after the listener is closed a run has boundedly many steps, and one that cannot go on has returned |
| Server.FreeSlotTaken | internal/server/server.go:120-127 | a slot can be taken exactly when fewer than `maxConns` handlers hold one |
| Server.NeverStuck | internal/server/server.go:80-137 | with a positive maximum some step other than cancelling can always be taken until Serve has returned |
| Server.CanReturn | internal/server/server.go:80-137 | every run can be continued to one in which Serve has returned |
| Server.LateConnectionDropped | internal/server/server.go:98-127 | a run in which a connection accepted after the cancellation is dropped and closed |
| Server.FailuresCounted | internal/server/server.go:98-119 | the failures counted are those since the last connection was accepted |
| Server.DelayIsBackoff | internal/server/server.go:99-119 | after k failures in a row the delay is 5 ms doubled k-1 times, at most a second |
| Table.FormatCell | internal/tools/tool_db.go:64-80 | one line: breaks and tabs become spaces, nothing else changes |
| Table.Width | internal/tools/tool_db.go:89-98 | the maximum over header and rows, attained by one of them |
| Table.MeasureColumns | internal/tools/tool_db.go:89-98 | the nested loops find every column's width, ragged rows included |
| Table.WriteTableRow | internal/tools/tool_db.go:115-128 | exactly one row's text is appended to the shared builder |
| Table.RenderTable | internal/tools/tool_db.go:85-112 | header, rule and rows in order; nothing without columns |
| Table.RowAligned | internal/tools/tool_db.go:115-128 | each cell starts at its column's offset and only spaces follow it up to the next |
| Table.TableAligned | internal/tools/tool_db.go:85-128 | in header, rule and every row column j starts at the same offset |
| Table.LinesOfWritten | internal/tools/tool_db.go:100-112 | each list of newline-free cells is one line of the output |
| Table.TableLines | internal/tools/tool_db.go:85-112 | with newline-free cells there are exactly rows + 2 lines |

## Left out

- The builder's SQL text, quoting and placeholder numbering, and what it does with LIMIT 0.
- Drivers, connections, live catalog queries and transactions; the catalog is a value, and
  reading it never fails.
- TLS, JSON, timeouts and deadlines inside the tools, logging and the wording of errors. A
  context is only the server's cancellation.
- Regular-expression matching (a predicate on lines), the order of a directory walk, the text of a
  `stat` line, and reads that change while they happen.
- The collection of standard error, which only feeds an error message.
- The other tools, flags and help text: they would only add easy members.
- Translate.Translate: states what is handed to the builder and stops there; the order of the calls across clauses is not recorded.
- Resolver.Resolve: says nothing of the partly rewritten query after a failure, which the tool discards.
- GrepTool.Grep: the paths are absolute, as the jail returns them; a cut at the first byte of the next match is then a character boundary. The lines are those the scanner yields; `GrepLaws` says when they are all lines.
- TailLaws.ShowsExactly: assumes that the window reaches the end of the file; beyond it a repetitive file may still be shown right by coincidence, so `TailLaws.WindowExactly` speaks of all files of a length.
- SqlTool.RowsTruncatedExactly: of the database it assumes that a positive limit bounds the number of rows, and nothing of LIMIT 0.
- Table.RenderTable: rows may be longer than the header by one cell at most; the source indexes out of range beyond that, and its scanner only makes rectangular rows.
- Table.TableAligned: text is a list of runes; an ill-formed byte is not told apart from a rune.
- Server.ServeReturns: a handler's work is a step that may be put off in a run, so the bound is on steps, not on time.
- Semantics.CompiledQueryMeaning: SELECT, GROUP BY, ORDER BY and LIMIT are given no semantics, only the calls made for them.
- FileTree.EvalSymlinks: the tree does not change during a walk, and permissions show only as unreadable entries.
