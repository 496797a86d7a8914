# vscode-fzf search core, modelled in Dafny

The extension `vscode-fzf` adds a command to VS Code. The command opens a
quick-pick, runs ripgrep (`rg`) over the first workspace folder for whatever
the user types, and lists every match as `path:line` with the matched text.
Choosing an entry opens the file with the cursor on that line.

This project models the three deterministic pieces of `src/extension.ts`:

- **Argument construction** (`RipgrepArgs`, file `ripgrep_args.dfy`). A filter
  that starts with `/` is a regular expression: the slash is dropped and
  `--fixed-strings` is left out. Any other filter is searched literally. The
  list always starts with `--line-number --smart-case` and ends with the
  pattern. `BuildArgs` is the extension's push-by-push construction. It is
  proved equal to `Args(Normalize(filter))`. `ArgsQuery` reads the argument
  list back and `Denormalize` recovers the filter, so both steps are shown
  to lose nothing.
- **Output parsing** (`OutputParser`, with the JavaScript `split`/`join`
  primitives in `Strings`). `ParseLine` splits a line on `:`, takes the
  first two pieces as the path and the line number, and joins the rest back
  with `:`. It drops the line when that text is empty. `Parse` is the
  extension's loop, which pushes records and `continue`s past dropped lines.
  It is proved equal to `ParseAll`. `SplitFields` is an independent
  reference reading that finds the first two colons by search. `ParseLineSpec`
  proves that the parser agrees with it.
- **Cursor position** (`Navigation`). The line number goes through `~~`
  (ECMAScript ToInt32), then 1 is subtracted, and the column is 0.

`Search.PopulateSearchItems` puts these together. Ripgrep itself is a
function parameter `rg` from the argument list and the working directory
to the text it printed.

Numbers: `+linenumber` is modelled by `Numbers.ToNumber`. A string of decimal
digits becomes its exact value (the empty string becomes 0, as in
JavaScript). Any other string becomes NaN. JavaScript numbers are doubles,
so this agrees with JavaScript only up to 2^53 (see "## Left out").

What the code does not do, and the model therefore does not do either:

- The code does not short-circuit an empty filter. It still runs ripgrep with
  the literal-mode list `--line-number --smart-case --fixed-strings ""`.
- It passes no `--` end-of-options marker and no search-root argument,
  because rg runs with the root as its working directory.
- It has no record cap, debouncing, superseding of searches or spawn-error
  reporting.

## Model

| member | source | states |
|---|---|---|
| `Strings.Split` | src/extension.ts:124 | `split` on one character always gives at least one piece, and no piece contains the separator, so no line handed to the parser contains a newline |
| `Strings.JoinSplit` | src/extension.ts:124 | joining the pieces of a split with the same separator gives back the original string: the lines are exactly the output |
| `Strings.Join` | src/extension.ts:135 | `xs.join(sep)` is empty exactly when there are no pieces or a single empty one, and it starts with the first piece. JoinSplit and SplitJoin relate it to Split |
| `Strings.SplitJoin` | src/extension.ts:134-135 | splitting a join of separator-free pieces gives the pieces back. This is the inverse direction of JoinSplit; together the two pin down `split` |
| `Strings.SplitTrailingSep` | src/extension.ts:124 | a final newline adds exactly one empty last line and leaves the other lines unchanged |
| `Numbers.ToNumber` | src/extension.ts:147 | unary `+` on a digit string is finite and non-negative, on "" is 0, and on any other string is NaN. The value is exact, which matches JavaScript only for values up to 2^53 |
| `Numbers.DecimalRoundTrip` | src/extension.ts:147 | the decimal spelling of any `n` converts back to exactly `n`; for JavaScript's `+` this holds when n <= 2^53 |
| `Numbers.ToInt32` | src/extension.ts:83 | `~~` maps NaN to 0, gives a value in the signed 32-bit range congruent to the input modulo 2^32, and leaves in-range integers unchanged |
| `RipgrepArgs.Normalize` | src/extension.ts:108-112 | regex mode exactly when the filter starts with `/`. In regex mode the filter is `/` plus the pattern; otherwise the pattern is the filter unchanged, `""` included |
| `RipgrepArgs.Denormalize` | src/extension.ts:109-112 | the filter typed for a query normalizes back to that query, except for a literal pattern that itself starts with `/` |
| `RipgrepArgs.NormalizeRoundTrip` | src/extension.ts:109-112 | every filter is recovered from its query, so two different filters never denote the same search |
| `RipgrepArgs.Args` | src/extension.ts:110-116 | the list starts with `--line-number`, `--smart-case`. It has 3 elements in regex mode and 4 in literal mode, with `--fixed-strings` third in literal mode, and the pattern is always last |
| `RipgrepArgs.ArgsQuery` | src/extension.ts:110-116 | any list it accepts is exactly the argument list of the query it returns |
| `RipgrepArgs.ArgsRoundTrip` | src/extension.ts:110-116 | the argument list determines the query: reading it back gives the mode and the pattern |
| `RipgrepArgs.BuildArgs` | src/extension.ts:108-116 | the imperative construction equals `Args(Normalize(filter))`. With a leading `/` it gives 3 args whose last, prefixed with `/`, is the filter; otherwise it gives 4 args ending in `--fixed-strings`, filter |
| `OutputParser.MakeItem` | src/extension.ts:139-148 | the pushed object: text and filepath as given, label "", rootpath = cwd, detail = text. Its description, `:` and its text spell the output line again; its description starts with the path, and its line number is `+` of what follows the path and colon |
| `OutputParser.ParseLine` | src/extension.ts:133-138 | the destructuring split, the rejoin and the `continue`: the empty line is dropped, and a kept record has non-empty text, detail = text, label "", rootpath = cwd and a colon-free path. The full keep/drop rule and the record's fields are stated by ParseLineSpec, ParseFields and KeptItem |
| `OutputParser.SplitFields` | src/extension.ts:133-135 | reference reading of a line: colon-free path and line-number fields whose colon-joined concatenation with the text is the line. It gives None exactly when the line has fewer than two colons |
| `OutputParser.SplitFieldsRoundTrip` | src/extension.ts:133-135 | writing colon-free path and line-number fields out with the text and reading them back gives the same fields |
| `OutputParser.ParseFields` | src/extension.ts:133-148 | for a line `path:n:text` with colon-free path and n, the split/rejoin gives exactly that path, that line-number text and that text, colons in the text included. The line is dropped iff the text is empty, so `path:N:` yields nothing |
| `OutputParser.ParseFewColons` | src/extension.ts:133-138 | a line with fewer than two colons, the empty line included, yields nothing and never fails |
| `OutputParser.ParseLineSpec` | src/extension.ts:133-148 | keep/drop rule: a line yields a record iff it has two colons and non-empty text after the second. The record's path, line-number text and text are those fields, with later colons kept in the text. Lines with fewer than two colons, `path:N:` and the empty line yield nothing |
| `OutputParser.KeptItem` | src/extension.ts:134-147 | a kept record has label "", rootpath = cwd, non-empty text, detail = text, a colon-free filepath, description = filepath `:` line-number text, linenumber = `+` of that text, and description `:` text = the line |
| `OutputParser.ParseAll` | src/extension.ts:132-149 | there are never more records than lines |
| `OutputParser.ParseAllAppend` | src/extension.ts:132-149 | order preservation: the records of `a + b` are those of `a` followed by those of `b` |
| `OutputParser.ParseAllMembers` | src/extension.ts:132-149 | a record is in the result iff some input line parses to it |
| `OutputParser.Parse` | src/extension.ts:126-152 | the push/`continue` loop returns exactly `ParseAll(lines, cwd)` |
| `Navigation.CursorFor` | src/extension.ts:83 | column 0. A line number n with 1 <= n < 2^31 gives line n - 1, which is non-negative. NaN gives line -1. The line is non-negative iff ToInt32 of the number is at least 1 |
| `Navigation.NavigateToParsedLine` | src/extension.ts:83 | a line `path:n:text` with non-empty text and 1 <= n < 2^31 is kept, and the cursor for its record goes to line n - 1, column 0 |
| `Search.PopulateSearchItems` | src/extension.ts:105-155 | the arguments are `Args(Normalize(filter))`. The items are `ParseAll` of ripgrep's output split on newlines |
| `Search.TrailingNewlineIgnored` | src/extension.ts:124-138 | the empty line after a final newline is dropped: output with or without it gives the same items |

## Left out

- Command registration and the quick-pick callbacks: `onDidAccept`, `onDidHide`, `onDidChangeValue`, `onDidChangeActive`, and restoring the original editor selection (src/extension.ts:12-60). These are host UI events.
- Opening the document and setting the editor selection in `showDocument` (src/extension.ts:70-87). Only the position arithmetic of line 83 is modelled. VS Code's `Position` rejects a negative line, which is host behaviour; `CursorFor` returns the computed line as is.
- Spawning `rg` and `streamToString` (src/extension.ts:90-103, 118-121). `PopulateSearchItems` takes ripgrep as a function parameter `rg`, whose result is whatever text the stream delivered. The `LIMIT` check counts raw stdout chunks, so where it cuts the output depends on how the OS splits pipe reads. It is not a record cap, and any cut is a possible `rg` result.
- The workspace-root lookup (src/extension.ts:105): `cwd` is a parameter.
- The `if (!lines)` guard (src/extension.ts:128). `lines` is always an array there, and a Dafny sequence cannot be null.
- `console.log` of the arguments (src/extension.ts:117).
- Numbers.ToNumber: only decimal-digit strings convert to a value. JavaScript's `+` also accepts surrounding whitespace, a sign, decimal fractions (`1.5`, `.5`, `1.`), the `0x`, `0o` and `0b` prefixes, exponents and `Infinity`; those strings become NaN here. With a colon in the path, `dir:1.5:x.txt:3:foo` gives JavaScript 1.5, `~~` 1 and cursor line 0, while the model gives NaN and line -1.
- Numbers.ToNumber: keeps the exact value of every digit string, while JavaScript rounds values above 2^53 to the nearest double and turns values of about 1.8 × 10^308 or more (from 309 digits on) into Infinity. Any digit string can reach the line-number field when the path contains a colon (`dir:9007199254740993:x.txt:3:foo`). For that line JavaScript gets 2^53, `~~` gives 0 and the cursor line is -1, while the model gives line 0.
- Numbers.DecimalRoundTrip: states an exact round trip of the model's conversion; JavaScript's `+` gives back `n` only for n <= 2^53.
- Numbers.ToInt32: is defined on the integer and NaN values ToNumber produces. Fractions (which `~~` truncates toward zero), Infinity (which `~~` maps to 0) and rounded doubles above 2^53 are not modelled, because ToNumber never produces them.
