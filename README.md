# kiste2cpp in Dafny

A model of the template compiler of kiss-templates (`kiste2cpp`) and of the
two escaping serializers of its runtime, with proofs of what they promise.

The compiler reads a template one line at a time and sorts each line:
- a blank line;
- a `%` line of C++ that is passed through;
- a `$class`, `$endclass` or `$member` directive;
- a `$|` left-trimmed line;
- a text line.

It tracks three pieces of scope:
- the brace depth of the C++ seen so far;
- the depth at which the open class was declared;
- the name of the open class.

A text line is cut into literal characters and commands (`$$`, `$%`,
`${…}`, `$raw{…}`, `$call{…}`, a final `$|`). The literal characters go
into `_serialize.text("…")` calls, controlled by a small state machine of
"text call open" and "string literal open".

The project has three layers:
- **Pure definition.** The compiler's state is a datatype `Compiler.Ctx`, and every step is a function on it (`compiler.dfy`). Line, command and declaration syntax live in `scanning.dfy`, `commands.dfy` and `directives.dfy`. Brace counting is `braces.dfy`; the error messages are `diagnostics.dfy`.
- **Imperative model.** `Kiste2Cpp.ParseContext` is a class whose fields are those of the source's `parse_context`, and whose methods update them in place (`kiste2cpp.dfy`). Every method is proved to produce exactly the state the pure definition gives.
- **Properties.** `compiler_facts.dfy` holds the properties of the pure definition: scope rules, the invariant kept between lines, the trailing newline, and that a successful compilation closes everything it opens.

Two more modules come from a refactored revision of the compiler:
- `line.dfy` is the segment list of a line (`src/line.cpp`).
- `parse_rule.dfy` is the per-line update of the parse context (`src/parse_context.cpp`).

`html.dfy` and `cpp.dfy` are the runtime serializers (`include/kiste/html.h`, `include/kiste/cpp.h`). They share the per-character concatenation of `escaping.dfy`.

The generated C++ scaffolding is kept abstract. The output is a sequence of
`Emission`s:
- single characters, for everything written through `os <<`;
- one event each for the file header, a class header, a member declaration and a class footer.

The source writes those four pieces as fixed text, or through a template the model does not include.

## Behaviour of the code worth knowing

- **`$name`.** `$name` is not a command. Only `${name}` reads an expression, and `$n…` is "Unknown command" (`Commands.DollarNameIsUnknown`).
- **`$` at the end of a text line.** `parse_arg` calls `line.at(pos)` with `pos` equal to the length. That throws `std::out_of_range`, not a parse error. The model keeps it as its own failure, `IndexOutOfRange` / `OutOfRange`.
- **Whether a class is open.** This is decided by the class name being non-empty, not by the class depth being non-zero.
- **`$endclass` and the class depth.** `$endclass` clears the class and parent names but leaves `class_curly_level` as it was. The refactored `parse_context.cpp` resets it to 0.
- **The `$|` left trim.** It drops exactly the two characters `$|` and whatever precedes them. It does not skip a further blank.
- **A colon glued to the class name.** `$class Child: Parent` takes `Child:` as the class name. It then fails with "Unexpected character after class name" on `Parent`. Only `$class Child : Parent` (colon separated by a blank) declares a parent.

## Model

| member | source | states |
|---|---|---|
| Scanning.StartsWith | src/kiste2cpp.cpp:13-25 | true exactly when `start` is no longer than `text` and is its prefix |
| Scanning.Matches | src/kiste2cpp.cpp:17-24 | the character loop of starts_with: true exactly when the remaining characters agree |
| Scanning.FindFirstNotOf | src/kiste2cpp.cpp:461 | the first index from `from` on that is not a blank or tab, with every character before it blank; None when all are blank |
| Scanning.FindFirstOf | src/kiste2cpp.cpp:311 | the first blank or tab from `from` on, with none before it; None when there is none |
| Braces.CurlyAfterMeaning | src/kiste2cpp.cpp:487-502 | the brace scan succeeds exactly when no prefix takes the depth below zero, and then ends at the old depth plus `{` count minus `}` count |
| Braces.CurlyAfterConcat | src/kiste2cpp.cpp:487-502 | scanning `a + b` is scanning `a` and then `b` from the depth reached |
| Braces.ScanDepthIsCurlyAfter | src/kiste2cpp.cpp:487-502 | the character-by-character loop with its early stop computes the prefix-based depth |
| Commands.ParseExpression | src/kiste2cpp.cpp:160-195 | the loop from depth 1 returns exactly `ExpressionAt`: the text up to the matching `}` and that brace's index, or "missing closing brace" |
| Commands.ExpressionAt | src/kiste2cpp.cpp:160-195 | on success the result is `line[start..k]` with `line[k] == '}'`; the only failure is "missing closing brace" |
| Commands.ExpressionAtSound | src/kiste2cpp.cpp:165-191 | success: the depth first returns to 0 at the returned brace and the expression's own braces balance; failure: the depth never reaches 0 on the rest of the line |
| Commands.MatchingBraceSound | src/kiste2cpp.cpp:165-187 | the brace found closes the opening one, and none earlier does; no brace found means the depth stays positive |
| Commands.MatchingBraceComplete | src/kiste2cpp.cpp:165-187 | a brace that closes the opening one is the one the scan finds |
| Commands.BalancedCloses | src/kiste2cpp.cpp:165-187 | a balanced expression followed by `}` is scanned exactly up to that `}` |
| Commands.BraceFreeBalanced | src/kiste2cpp.cpp:169-186 | an expression without braces is balanced |
| Commands.ExprCommand | src/kiste2cpp.cpp:222-240 | a command is found exactly when the text starts with `{`, `raw{` or `call{`; it ends with `{` and the expression starts after it |
| Commands.KeywordRead | src/kiste2cpp.cpp:222-240 | a keyword at `pos` is recognised as that command, starting right after the keyword |
| Commands.ParseCommand | src/kiste2cpp.cpp:197-257 | past the end: out of range; `$$`/`$%`: that character, position unchanged; `$\|`: only as the last character, otherwise "Trailing characters after trim-right"; an expression command ends on its `}` |
| Commands.CommandErrors | src/kiste2cpp.cpp:250-253 | after a `$`, any character other than `$`, `%` and `\|` that does not start `{`, `raw{` or `call{` is "Unknown command"; "missing closing brace" comes only after one of those keywords |
| Commands.EmbeddedCommand | src/kiste2cpp.cpp:222-253 | no keyword: "Unknown command"; after a keyword, fails exactly when the expression has no closing brace, with "missing closing brace", and otherwise reads that kind of command with the text up to its `}` |
| Commands.ExprCommandRoundTrip | src/kiste2cpp.cpp:222-249 | keyword, balanced expression and `}` read back as that command and expression |
| Commands.ExprRead | src/kiste2cpp.cpp:203-222 | a command starting with `{`, `r` or `c` goes to the expression branch |
| Commands.DollarNameIsUnknown | src/kiste2cpp.cpp:250-253 | `Hello $name!` is "Unknown command"; `Hello ${name}!` reads the expression `name` |
| Commands.TokenAt | src/kiste2cpp.cpp:269-279 | a character other than `$` is a literal token and the loop moves on by one; a `$\|` token is the line's last two characters |
| Commands.TokenAtDollar | src/kiste2cpp.cpp:274-276 | a `$` token succeeds or fails exactly as parse_arg does after it, and the loop continues one past the last character parse_arg consumed |
| Commands.CharTokens | src/kiste2cpp.cpp:277-278 | one literal token per character, in order |
| Commands.PlainLine | src/kiste2cpp.cpp:269-280 | a line without `$` is tokenised into its characters |
| Commands.TrimRightIsLast | src/kiste2cpp.cpp:213-220 | in a tokenised line, `$\|` can only be the last token and the line then ends with `$\|` |
| Directives.ParseParentClass | src/kiste2cpp.cpp:301-320 | a parent name, when found, is a non-empty word without blanks |
| Directives.ParentMatchesWords | src/kiste2cpp.cpp:301-320 | the index-based parse agrees with a parse of the blank-separated words: nothing, or `:` then one name and nothing after |
| Directives.ParseClassDecl | src/kiste2cpp.cpp:359-370 | the class name is a non-empty word without blanks, and so is the parent when there is one |
| Directives.ClassDeclMatchesWords | src/kiste2cpp.cpp:359-370 | the index-based parse agrees with the word-based one |
| Directives.ClassDeclRoundTrip | src/kiste2cpp.cpp:359-370 | `class NAME` and `class NAME : PARENT` read back as that name and parent |
| Directives.ClassWithoutParent | src/kiste2cpp.cpp:359-365 | `class NAME` reads back as that name with no parent |
| Directives.ClassWithParent | src/kiste2cpp.cpp:359-370 | `class NAME : PARENT` reads back as that name and parent |
| Directives.GluedParse | src/kiste2cpp.cpp:307-317 | a colon glued to the parent's name (`:PARENT`) is accepted: the parent is the word after the colon, unless more text follows it |
| Directives.ParseMemberDecl | src/kiste2cpp.cpp:326-346 | both the member's class name and its name are non-empty words without blanks |
| Directives.MemberDeclMatchesWords | src/kiste2cpp.cpp:326-346 | the index-based parse agrees with a parse of exactly two words |
| Directives.MemberDeclRoundTrip | src/kiste2cpp.cpp:326-346 | `member TYPE NAME` reads back as that type and name |
| Compiler.Write | src/kiste2cpp.cpp:63 | writing appends to the output and changes no flag |
| Compiler.LiteralChar | src/kiste2cpp.cpp:74-85 | write_char's output ends with the character and is two characters long exactly for `\` and `"`, with a backslash first |
| Compiler.LiteralConcat | src/kiste2cpp.cpp:139-142 | writing a string through write_char is writing its pieces one after the other |
| Compiler.LiteralRoundTrip | src/kiste2cpp.cpp:74-85 | reading the write_char output back as a C++ string body gives the original text |
| Compiler.LiteralQuotesEscaped | src/kiste2cpp.cpp:74-85 | every `"` in the write_char output is escaped, so the literal is not ended early |
| Compiler.OpenString | src/kiste2cpp.cpp:59-72 | afterwards both the text call and the string are open; a second call writes nothing |
| CompilerFacts.OpenStringTwice | src/kiste2cpp.cpp:59-72 | opening the string a second time changes nothing |
| Compiler.CloseString | src/kiste2cpp.cpp:87-94 | afterwards the string is closed; nothing happens if it was closed |
| Compiler.CloseStream | src/kiste2cpp.cpp:96-104 | afterwards neither the string nor the text call is open; nothing happens if neither was |
| Compiler.CloseText | src/kiste2cpp.cpp:106-114 | the previous line type becomes none, and after a text line the call is closed |
| Compiler.OpenText | src/kiste2cpp.cpp:116-125 | the previous line type becomes text and the open flags are kept |
| Compiler.OpenTry | src/kiste2cpp.cpp:127-133 | only output changes |
| Compiler.CloseTry | src/kiste2cpp.cpp:134-145 | only output changes |
| Compiler.ArgEmitted | src/kiste2cpp.cpp:197-257 | parse_arg only appends output and keeps the line type; `$\|` clears the trailing return, and every other command keeps it |
| Compiler.ExprEmitted | src/kiste2cpp.cpp:224-229 | an expression command leaves the string and the text call closed |
| Compiler.TokenEmitted | src/kiste2cpp.cpp:271-279 | one step of the text loop only appends output; only `$\|` clears the trailing return |
| Compiler.LineFrom | src/kiste2cpp.cpp:269-280 | the loop over a text line only appends output |
| Compiler.Indent | src/kiste2cpp.cpp:264-268 | two spaces per level, and nothing but spaces |
| Compiler.LineEnded | src/kiste2cpp.cpp:281-286 | the end of a text line leaves the string closed |
| Compiler.TextLineParsed | src/kiste2cpp.cpp:259-287 | fails with "Unexpected text outside of function" when the depth does not exceed the class depth; on success the line type is text and the string is closed |
| Compiler.Classify | src/kiste2cpp.cpp:461-541 | blank exactly when no non-blank character exists; `%` lines and `$\|` lines are recognised at the first non-blank character |
| Compiler.CppLineParsed | src/kiste2cpp.cpp:477-506 | succeeds exactly when the depth never goes below zero, and then moves the depth by the line's braces, marks the line as C++, closes a text run and keeps the class |
| Compiler.ClassParsed | src/kiste2cpp.cpp:355-370 | fails when a class is open or the declaration is malformed, with that message; otherwise opens the declared class at the current depth, takes the declared parent or keeps the previous one, appends the class header and changes nothing else |
| Compiler.EndClassParsed | src/kiste2cpp.cpp:514-519 | fails exactly when no class is open; on success both names are cleared, the `ClassFooter(name, parent, line)` event is appended and the rest of the context (depths, flags, line) is unchanged |
| Compiler.MemberParsed | src/kiste2cpp.cpp:322-352 | fails when no class is open, or with the declaration's own error when it is malformed; otherwise appends the member of the declared type and name to the open class and changes nothing else |
| Compiler.LineParsed | src/kiste2cpp.cpp:455-459 | one line never changes the file name or the exception setting |
| Compiler.LineHandled | src/kiste2cpp.cpp:461-541 | the per-kind handler never changes the file name or the exception setting |
| Compiler.LinesParsed | src/kiste2cpp.cpp:455-543 | the loop over the lines never changes the file name or the exception setting |
| Compiler.SplitLines | src/kiste2cpp.cpp:455-459 | the getline loop yields at least one line, and no line holds a line break |
| Compiler.SplitJoin | src/kiste2cpp.cpp:455-459 | joining the lines with line breaks gives back the input |
| CompilerFacts.InitialValid | src/kiste2cpp.cpp:289-299 | the fresh context after the header satisfies the between-lines invariant |
| CompilerFacts.LineValid | src/kiste2cpp.cpp:455-542 | every line kind keeps the invariant: no string left open, a text call open only after text inside braces, a parent only in a class, class events well nested |
| CompilerFacts.LinesValid | src/kiste2cpp.cpp:455-543 | the invariant holds after any number of lines |
| CompilerFacts.CompiledClean | src/kiste2cpp.cpp:544-547 | a successful compilation ends at depth 0 with no class, no open call or string, well-nested class events, and the file header first |
| CompilerFacts.BracesCheckedFirst | src/kiste2cpp.cpp:620-626 | unclosed braces are reported before an unclosed class |
| CompilerFacts.ClassScope | src/kiste2cpp.cpp:355-370 | a `$class` line fails inside a class; it succeeds exactly when no class is open and the declaration parses, and it is then parse_class on the text after `$` |
| CompilerFacts.EndClassScope | src/kiste2cpp.cpp:514-519 | `$endclass` fails exactly when no class is open, clears both names, and on the line equals `EndClassParsed`, so the footer is appended and nothing else changes |
| CompilerFacts.MemberScope | src/kiste2cpp.cpp:322-352 | a `$member` line fails with no class open; it succeeds exactly when a class is open and the declaration parses, and then only appends the member and keeps every scope |
| CompilerFacts.TextScope | src/kiste2cpp.cpp:259-263 | a text or `$\|` line fails at a depth not above the class depth |
| CompilerFacts.BlankScope | src/kiste2cpp.cpp:462-472 | a blank line is a text line only inside a class and deeper than the class depth; otherwise a bare newline |
| CompilerFacts.CppLineDepth | src/kiste2cpp.cpp:487-502 | a `%` line succeeds exactly when the depth never goes below zero; it moves the depth by its braces |
| CompilerFacts.PlainTextLine | src/kiste2cpp.cpp:259-287 | a line without `$` is emitted as the indentation, the text call if not open, one literal holding the escaped line, and `\n` |
| CompilerFacts.LineFromTokens | src/kiste2cpp.cpp:269-280 | emitting while scanning agrees with tokenising first and then emitting, on failures too |
| CompilerFacts.TrailingReturnOfLine | src/kiste2cpp.cpp:281-286 | a text line ends with `\n"` exactly when its last command is not `$\|` |
| CompilerFacts.TrimLeftParsed | src/kiste2cpp.cpp:524-532 | a `$\|` line is the text line that follows the `$\|` |
| CompilerFacts.DollarClassified | src/kiste2cpp.cpp:507-536 | a `$` line is sorted by the first test that matches: class, endclass, member, `\|`, otherwise text |
| CompilerFacts.FirstClassified | src/kiste2cpp.cpp:461-540 | no non-blank: blank; `%`: C++; anything but `$`: text |
| Kiste2Cpp.ParseContext.constructor | src/kiste2cpp.cpp:34-57 | the fields start at their defaults with no output |
| Kiste2Cpp.ParseContext.Write | src/kiste2cpp.cpp:63 | appends to the output, as `Compiler.Write` does |
| Kiste2Cpp.ParseContext.OpenString | src/kiste2cpp.cpp:59-72 | the new state is `Compiler.OpenString` of the old one |
| Kiste2Cpp.ParseContext.WriteChar | src/kiste2cpp.cpp:74-85 | the new state is `Compiler.WriteChar` of the old one |
| Kiste2Cpp.ParseContext.CloseString | src/kiste2cpp.cpp:87-94 | the new state is `Compiler.CloseString` of the old one |
| Kiste2Cpp.ParseContext.CloseStream | src/kiste2cpp.cpp:96-104 | the new state is `Compiler.CloseStream` of the old one |
| Kiste2Cpp.ParseContext.CloseText | src/kiste2cpp.cpp:106-114 | the new state is `Compiler.CloseText` of the old one |
| Kiste2Cpp.ParseContext.OpenText | src/kiste2cpp.cpp:116-125 | the new state is `Compiler.OpenText` of the old one |
| Kiste2Cpp.ParseContext.OpenExceptionHandling | src/kiste2cpp.cpp:127-133 | the new state is `Compiler.OpenTry` of the old one |
| Kiste2Cpp.ParseContext.CloseExceptionHandling | src/kiste2cpp.cpp:134-145 | the loop writes the expression through write_char: the new state is `Compiler.CloseTry` |
| Kiste2Cpp.ParseArg | src/kiste2cpp.cpp:197-257 | returns parse_arg's result by `ParseCommand` and leaves the state `ArgEmitted` gives |
| Kiste2Cpp.ParseSymbolArg | src/kiste2cpp.cpp:203-221 | `$$`, `$%` and `$\|` as `ParseCommand` reads them |
| Kiste2Cpp.ParseEmbedded | src/kiste2cpp.cpp:222-253 | the expression commands and "Unknown command" as `EmbeddedCommand` reads them |
| Kiste2Cpp.WriteExpression | src/kiste2cpp.cpp:224-229 | the result is `ExpressionAt`'s, and the output is the one `ExprEmitted` gives |
| Kiste2Cpp.ParseTextLine | src/kiste2cpp.cpp:259-287 | fails or succeeds as `TextLineParsed`, with its state |
| Kiste2Cpp.WriteIndentation | src/kiste2cpp.cpp:264-268 | writes `Indent(curly_level + 1)` |
| Kiste2Cpp.WriteLineBody | src/kiste2cpp.cpp:269-280 | the loop's failure or final state is `LineFrom`'s |
| Kiste2Cpp.WriteToken | src/kiste2cpp.cpp:271-279 | one iteration: the continuation index and the state of `TokenAt` and `TokenEmitted` |
| Kiste2Cpp.WriteCharToken | src/kiste2cpp.cpp:271-278 | a literal character: the loop moves on by one with the character written |
| Kiste2Cpp.WriteDollarToken | src/kiste2cpp.cpp:271-276 | a `$`: the command's result and state as `TokenAt` reads it |
| Kiste2Cpp.WriteCommand | src/kiste2cpp.cpp:274-276 | parse_arg after the `$`, and the loop continues one past its result |
| Kiste2Cpp.ParseClass | src/kiste2cpp.cpp:355-417 | fails or succeeds as `ClassParsed`, with its state |
| Kiste2Cpp.ParseMember | src/kiste2cpp.cpp:322-353 | fails or succeeds as `MemberParsed`, with its state |
| Kiste2Cpp.WriteClassFooter | src/kiste2cpp.cpp:419-443 | fails with "No class to end here" when no class is open; otherwise appends the class footer |
| Kiste2Cpp.WriteFooter | src/kiste2cpp.cpp:445-451 | fails with "class not ended…" while a class is open; otherwise writes a newline |
| Kiste2Cpp.ParseCppLine | src/kiste2cpp.cpp:477-506 | fails or succeeds as `CppLineParsed`, with its state |
| Kiste2Cpp.CopyCppLine | src/kiste2cpp.cpp:487-505 | the brace check, then the line without its `%` and a newline; the new depth is the scanned one |
| Kiste2Cpp.CountBraces | src/kiste2cpp.cpp:487-502 | the loop succeeds exactly when the depth never goes below zero, and then leaves the scanned depth; a failure leaves depth 0, where the error is thrown; nothing else changes |
| Kiste2Cpp.ParseLine | src/kiste2cpp.cpp:457-541 | one iteration of `parse`: fails or succeeds as `LineParsed` |
| Kiste2Cpp.HandleLine | src/kiste2cpp.cpp:461-541 | the handler chosen by the first non-blank character does what `LineHandled` gives |
| Kiste2Cpp.ParseBlankLine | src/kiste2cpp.cpp:462-472 | a blank line as `BlankParsed` gives it |
| Kiste2Cpp.ParseDirectiveLine | src/kiste2cpp.cpp:507-538 | a `$` line as `LineHandled` gives it |
| Kiste2Cpp.ParseEndClass | src/kiste2cpp.cpp:514-519 | write_class_footer, then both names cleared, as `EndClassParsed` gives |
| Kiste2Cpp.ParseTrimLeft | src/kiste2cpp.cpp:524-532 | the rest of the line after `$\|` as a text line |
| Kiste2Cpp.Parse | src/kiste2cpp.cpp:453-548 | the loop fails as `LinesParsed` does; if all lines pass, a non-zero depth is "not enough closing curly braces"; otherwise the state is `LinesParsed`'s |
| Kiste2Cpp.WriteHeader | src/kiste2cpp.cpp:289-299 | appends the file header |
| Kiste2Cpp.Compile | src/kiste2cpp.cpp:620-627 | header, parse and footer: the output or the error of `Compiled` |
| ParseRule.Context.constructor | src/parse_context.h:24-35 | depth 0, class depth 0, no pending line break |
| ParseRule.Context.Update | src/parse_context.cpp:54-59 | on success sets exactly the three derived fields: a class opening takes the new depth, a class end resets it to 0; a failed brace check changes nothing |
| ParseRule.DetermineCurlyLevel | src/parse_context.cpp:8-28 | the old depth plus `{` count minus `}` count, succeeding exactly when no prefix goes below zero; otherwise "Too many closing curly braces in C++" |
| ParseRule.DetermineClassCurlyLevel | src/parse_context.cpp:30-41 | class opening: the current depth; class end: 0; any other line: the previous class depth |
| ParseRule.HasTrailingReturn | src/parse_context.cpp:43-51 | false exactly for a text line whose last command is `$\|`; every other line keeps the line break |
| ParseRule.TwoLines | src/parse_context.cpp:8-28 | two lines counted one after the other give the depth of their concatenation |
| LineSegments.AtLeastOne | src/line.cpp:6-12 | the result is non-empty, and a non-empty list is unchanged |
| LineSegments.WithTrailingText | src/line.cpp:14-21 | ends in a text segment; the old list is a prefix; at most one segment is added, and it is empty text |
| LineSegments.WithCharacter | src/line.cpp:23-27 | the character goes to the end of the last text segment, or starts a new text segment; no other segment changes |
| LineSegments.MergedText | src/line.cpp:33-38 | text added character by character ends up appended to the one trailing text segment |
| LineSegments.AddSegmentKeepsShape | src/line.cpp:29-45 | adding a segment never creates two adjacent text segments |
| LineSegments.WithTextKeepsShape | src/line.cpp:33-38 | merging text never creates two adjacent text segments |
| LineSegments.WithCharacterKeepsShape | src/line.cpp:23-27 | adding a character never creates two adjacent text segments |
| LineSegments.FinishedShape | src/line.cpp:47-64 | a finished text line is non-empty; a trailing `$\|` is dropped and nothing else changes; a pending line break is then added as `WithCharacter` adds a character, so the line ends in text ending in `\n`; other lines are untouched |
| LineSegments.LineData.constructor | src/line.cpp:47 | holds the given line type and segments, as the copy made for a `line_t` |
| LineSegments.LineData.EnforceAtLeastOneSegment | src/line.cpp:6-12 | the list becomes `AtLeastOne` of the old one |
| LineSegments.LineData.EnforceTrailingTextSegment | src/line.cpp:14-21 | the list becomes `WithTrailingText` of the old one |
| LineSegments.LineData.AddCharacter | src/line.cpp:23-27 | the list becomes `WithCharacter` of the old one |
| LineSegments.LineData.AddSegment | src/line.cpp:29-45 | returns the segment's end position; text is merged character by character, anything else is appended |
| LineSegments.Line.constructor | src/line.cpp:47-64 | copies the data and the context's depth; a text line is finished as `Finished` says |
| LineSegments.Line.EndsWithText | src/line.cpp:66-73 | true exactly for a text line whose last segment is text |
| LineSegments.Line.StartsWithText | src/line.cpp:75-82 | true exactly for a text line whose first segment is text |
| Html.SafeChar | include/kiste/html.h:29-51 | the escape of one character contains none of `<`, `>`, `'`, `"`, and its `&` starts an entity |
| Html.UnescapedEntity | include/kiste/html.h:31-50 | each of the five entities reads back as its character |
| Html.EscapeRoundTrip | include/kiste/html.h:66-74 | unescaping the escaped string gives the original |
| Html.EscapedInjective | include/kiste/html.h:66-74 | different strings escape differently |
| Html.SafeConcat | include/kiste/html.h:66-74 | concatenating safe pieces stays safe, because an entity stays whole |
| Html.EscapedSafe | include/kiste/html.h:29-74 | the escape of any string has no `<`, `>`, `'` or `"`, and every `&` starts one of the five entities |
| Html.Serializer.Text | include/kiste/html.h:24-27 | appends the C string the argument holds, unescaped |
| Html.Serializer.Raw | include/kiste/html.h:76-80 | appends the argument unchanged |
| Html.Serializer.EscapeChar | include/kiste/html.h:29-51 | appends the escape of the character |
| Html.Serializer.Escape | include/kiste/html.h:66-74 | the loop appends the per-character escapes, in order |
| Escaping.CString | include/kiste/html.h:24-27 | what `_os <<` writes for a `const char*`: a prefix of the argument with no NUL, which is the whole argument or stops at a NUL |
| Escaping.DecodeFlatMap | include/kiste/html.h:66-74 | a decoder that reads each character's escape back as the character reads every escaped string back as the original |
| Escaping.FlatMapConcat | include/kiste/html.h:68-73 | escaping a concatenation is concatenating the escapes |
| Escaping.FlatMapCons | include/kiste/cpp.h:62-67 | escaping a character and then a string is the character's escape followed by the string's |
| Escaping.FlatMapSnoc | include/kiste/cpp.h:62-67 | one more character appends its escape |
| Cpp.EscapedChar | include/kiste/cpp.h:29-45 | `\`, `"` and a line break become two characters starting with a backslash, and not a line break; anything else is unchanged |
| Cpp.EscapeRoundTrip | include/kiste/cpp.h:60-68 | reading the escaped text as a C++ string body gives the original |
| Cpp.EscapedInjective | include/kiste/cpp.h:60-68 | different strings escape differently |
| Cpp.EscapedHasNoLineBreak | include/kiste/cpp.h:33-41 | the escaped text contains no line break |
| Cpp.EscapedQuotesAreEscaped | include/kiste/cpp.h:33-41 | every `"` in the escaped text is preceded by a backslash |
| Cpp.EscapedLength | include/kiste/cpp.h:29-45 | the escape is never shorter, and is as long exactly when nothing needed escaping |
| Cpp.Serializer.Text | include/kiste/cpp.h:24-27 | appends the C string the argument holds, unescaped |
| Cpp.Serializer.Raw | include/kiste/cpp.h:70-74 | appends the argument unchanged |
| Cpp.Serializer.EscapeChar | include/kiste/cpp.h:29-45 | appends the escape of the character |
| Cpp.Serializer.Escape | include/kiste/cpp.h:60-68 | the loop appends the per-character escapes, in order |

## Left out

- The command line and files: `usage`, argument parsing, opening the input and output (src/kiste2cpp.cpp:551-619). The input is given to `Kiste2Cpp.Compile` as a string and cut at line breaks as `getline` does.
- The warning printed to standard output after an empty `$|` line (src/kiste2cpp.cpp:527-530), which does not change the result.
- How `main` reports an error on standard error (src/kiste2cpp.cpp:628-634): the model returns the failure with the file name, line number, line and message it would print.
- Partial output on error: the output written before a failure is not returned.
- The exact scaffolding text, written as four abstract emissions:
  - the file header, with `#line` (src/kiste2cpp.cpp:289-299);
  - the class header, with `#line` (377-415);
  - the member declaration (348-352);
  - the class footer (424-427), which is rendered by `ClassTemplate`. `ClassTemplate` is not part of this model.
- The arithmetic and floating-point `escape` overloads of both serializers, which only format numbers.
- `serializer_builder.h`, `raw_type.h` and the one-line stream functors: compile-time type composition, with no runtime logic.
- The stream objects in both parse contexts.
- The `line_directives` flag, which is stored and never read by the code modelled.
- `line_type.h`, `command_type.h`, `segment_type.h` and the header declaring `line_data_t` and `segment_t`. These are not part of this model. Their enumerations list only the values the modelled code distinguishes.
- Inheritance of `line_t` from `line_data_t` is modelled as a `Line` holding its `LineData`.
- The line layout `line_t` uses in `src/line.h` (previous and next line type, class and member data), which the modelled functions do not read.
- `ParseRule.Context.Update` takes the line's type and commands as a value. The source passes a whole `line_t`, of which only these two fields are read.
- Characters: strings are sequences of Unicode code points, where the source's streams carry bytes. The two agree on valid UTF-8 text, since every character the escapers and the compiler treat specially is ASCII.
- Html.Serializer.Raw, Cpp.Serializer.Raw, Html.Serializer.Escape, Cpp.Serializer.Escape: modelled for a `std::string` argument, which is written or escaped whole; for a `const char*` argument, `std::string(t)` would stop at its first NUL as `text` does.
- Integer widths: depths and positions are unbounded naturals. The source's `size_t` never wraps for lines that fit in memory.
