# CPH LeetCode: a verified model of the run-and-compare core

The VS Code extension in `src/extension.ts` fetches a LeetCode problem's
sample tests into `inputs.txt` and `outputs.txt`, scaffolds a
`solution.cpp` or `solution.py`, and checks a solution on demand. It runs
the solution on `inputs.txt`, normalises the program's output and the
expected output, and shows "Test case passed!" or a message quoting both
normalised texts.

This project models the deterministic string logic inside that flow as
Dafny functions and proves its properties:

- `text.dfy` (module `Text`): the whitespace set of JavaScript's
  `String.prototype.trim`, trimming, `split(/\r?\n/)` and `join("\n")`.
- `normalize.dfy` (module `Normalizer`): `normalizeOutput`, which splits,
  trims every line, drops the empty lines and joins the rest.
- `compare.dfy` (module `Compare`): the verdict, the failure message, and a
  reader that takes the message apart again.
- `runner.dfy` (module `Runner`): `runUserCode`, with the process left
  abstract as a function `exec` from a command to what the process reports.
- `registry.dfy` (module `Registry`): `getRunCommand`, `getFileExtension`,
  `getStarterCode`, `getLanguageFromExtension` and the offered language list.
- `url.dfy` (module `Url`): the problem-URL pattern of the input box, written
  as a matcher that takes a URL apart, with soundness and completeness.
- `commands.dfy` (module `Commands`): the decision logic of the
  `runAndCompare` command. It covers the three checks that stop it, then
  running, reading and judging. The workspace search, the active editor,
  the process and `fs.readFile` are inputs.
- `lists.dfy` (module `Lists`) and `wrappers.dfy` (module `Wrappers`):
  generic sequence facts and the `Option` type.

Strings are sequences of Unicode scalar values. Two behaviours of the code
to note:

- `getFileExtension` and `getStarterCode` fall back to `"txt"` and
  `"// Unsupported language"`. They do not signal an unsupported language.
  Only `getRunCommand` and `getLanguageFromExtension` return null.
- The language to run is chosen from the editor document's language
  identifier (`"cpp"`, `"python"`), not from the file's extension.

## Model

| member | source | states |
|---|---|---|
| Text.Trim | src/extension.ts:101 | the result is empty exactly when the line is all whitespace; otherwise it neither starts nor ends with whitespace |
| Text.TrimStart | src/extension.ts:101 | the result is a suffix of the input, what it drops is whitespace, and it does not start with whitespace |
| Text.TrimEnd | src/extension.ts:101 | the result is a prefix of the input, what it drops is whitespace, and it does not end with whitespace |
| Text.TrimIdempotent | src/extension.ts:101 | trimming twice is trimming once |
| Text.TrimSpacePrefix | src/extension.ts:101 | whitespace put in front of a line does not change its trimmed form |
| Text.TrimSpaceSuffix | src/extension.ts:101 | whitespace put after a line does not change its trimmed form |
| Text.TrimFixpoint | src/extension.ts:101 | a line without whitespace at either end is left unchanged |
| Text.SplitLines | src/extension.ts:100 | splitting always yields at least one piece (the empty text gives one empty line) |
| Text.SplitLinesShape | src/extension.ts:100 | there is one piece more than there are line feeds, and no piece holds a line feed |
| Text.SplitLinesSingle | src/extension.ts:100 | a text without line feeds is a single line |
| Text.SplitLinesAppendCrLf | src/extension.ts:100 | a "\r\n" break separates the lines before it from the lines after it |
| Text.SplitLinesAppendLf | src/extension.ts:100 | a "\n" break does the same unless a "\r" precedes it |
| Text.SplitLinesSnoc | src/extension.ts:100 | appending a character other than a line feed extends only the last line |
| Text.Join | src/extension.ts:103 | the joined text starts with the first line and ends with the last line |
| Text.JoinEnds | src/extension.ts:103 | the joined text's first and last characters are those of the first and last lines |
| Text.SplitJoin | src/extension.ts:100-103 | splitting undoes joining for lines with no line feed and no trailing "\r" |
| Normalizer.TrimEach | src/extension.ts:101 | one trimmed line per input line, in the same position |
| Normalizer.DropBlank | src/extension.ts:102 | keeps exactly the non-empty lines, each as often as it occurs, in their original order |
| Normalizer.NormalLines | src/extension.ts:98-104 | every surviving line is non-empty, holds no line feed and has no whitespace at either end |
| Normalizer.Normalize | src/extension.ts:98-104 | the normalised text neither starts nor ends with whitespace, so not with a line break either |
| Normalizer.NormalizeLines | src/extension.ts:98-104 | the result is empty exactly when no line survives; otherwise splitting it gives back exactly the surviving lines |
| Normalizer.NormalizeIdempotent | src/extension.ts:98-104 | normalising twice is normalising once |
| Normalizer.NormalizeEmptyIff | src/extension.ts:98-104 | a text normalises to the empty string exactly when it is all whitespace |
| Normalizer.NormalizeCrLf | src/extension.ts:100 | a "\r\n" break and a "\n" break normalise alike, wherever they occur |
| Normalizer.NormalizeExampleCrLf | src/extension.ts:100 | "a\r\nb\n" and "a\nb\n" normalise alike |
| Normalizer.NormalizeDropsBlankLine | src/extension.ts:101-102 | a whitespace-only line between two breaks vanishes |
| Normalizer.NormalizeBlankBetween | src/extension.ts:101-103 | two clean lines around a whitespace-only line normalise to the two lines joined by one "\n" |
| Normalizer.NormalLinesConcat | src/extension.ts:100-102 | the lines of a text joined at a "\n" are the lines of its two parts, one after the other |
| Normalizer.NormalFixpoint | src/extension.ts:101-102 | trimming and filtering leave clean non-empty lines unchanged |
| Normalizer.NormalLinesEmptyIff | src/extension.ts:101-102 | no line survives exactly when the text is all whitespace |
| Normalizer.NormalLinesOfGoodLine | src/extension.ts:98-104 | a single clean line is its own normal form |
| Normalizer.NormalizeTrimmed | src/extension.ts:98-104 | trimming a text beforehand does not change its normal form |
| Normalizer.JoinNoEmptyLine | src/extension.ts:103 | joining lines that are each non-empty, hold no line feed and have no whitespace at either end never puts two line feeds in a row |
| Normalizer.NormalizeNoEmptyLine | src/extension.ts:98-104 | the normalised text has no empty line and no trailing line feed |
| Compare.Judge | src/extension.ts:106-115 | the test passes exactly when the two normalised texts are equal; a failure quotes the normalised expected text, then the normalised received text |
| Compare.FindFrom | src/extension.ts:113 | finds the first occurrence of the heading at or after a position, or reports that there is none |
| Compare.ParseFailureMessage | src/extension.ts:113 | whatever the reader extracts rebuilds the message exactly |
| Compare.FailureMessageRoundTrip | src/extension.ts:113 | the reader recovers both texts when the expected text has no empty line and no trailing line feed |
| Compare.JudgeFailureReadable | src/extension.ts:106-114 | every failure message splits back into exactly the normalised expected and received texts |
| Compare.JudgeAlike | src/extension.ts:106-109 | outputs with the same normal form are judged alike, on either side |
| Compare.JudgeNormalizedInputs | src/extension.ts:106-109 | normalising either output beforehand does not change the verdict |
| Compare.JudgePassSymmetric | src/extension.ts:109 | swapping the two outputs does not change whether the test passes |
| Compare.JudgeTrimmedOutput | src/extension.ts:106 | trimming the program's output, as the runner does, does not change the verdict |
| Compare.JudgeLineEndings | src/extension.ts:100-109 | Windows and Unix line endings in the output are judged alike |
| Compare.JudgeBlankOutput | src/extension.ts:106-110 | all-whitespace output passes exactly against all-whitespace expected output |
| Runner.Classify | src/extension.ts:134-140 | the run is rejected exactly when an error is reported or standard error is non-empty, and the rejection message is exactly standard error; otherwise it resolves with standard output trimmed of its outer whitespace |
| Runner.RunUserCode | src/extension.ts:126-141 | an unsupported language is rejected with "Unsupported language"; otherwise the outcome is that of the language's command |
| Runner.ResolvedNormalizesLikeStdout | src/extension.ts:139 | a resolved result is already trimmed and normalises exactly like the raw standard output |
| Runner.StderrAloneRejects | src/extension.ts:135-136 | text on standard error rejects the run even when the process reports no error |
| Runner.SilentFailureHasEmptyMessage | src/extension.ts:135-136 | a process that fails without writing to standard error is rejected with an empty message |
| Runner.DetectedLanguageHasCommand | src/extension.ts:128-132 | every detected language has a run command, so "Unsupported language" never follows detection |
| Registry.GetRunCommand | src/extension.ts:144-153 | a command exists exactly for "C++" and "Python", and it always reads standard input from the quoted input file |
| Registry.CppCompilesThenRuns | src/extension.ts:147 | the C++ command compiles to filePath + ".exe" and then runs that executable on the input file |
| Registry.PythonInterprets | src/extension.ts:149 | the Python command hands the quoted source file to `python` with input redirected |
| Registry.GetFileExtension | src/extension.ts:155-161 | the extension is never empty, and it is "txt" exactly for unsupported languages |
| Registry.ExtensionsDistinct | src/extension.ts:157-158 | the two supported languages get different extensions |
| Registry.GetStarterCode | src/extension.ts:163-169 | the starter code is never empty; it is the placeholder exactly for unsupported languages, and a `#` line opens both templates |
| Registry.GetLanguageFromExtension | src/extension.ts:171-177 | a language is found exactly for "cpp" and "python", and every language found is supported |
| Registry.DetectionKeysAreLanguageIds | src/extension.ts:155-177 | mapping an extension back to a language works for C++ ("cpp") but not for Python ("py" is not "python") |
| Registry.LanguagesAreSupported | src/extension.ts:27 | the quick pick offers exactly the supported languages |
| Registry.OfferedLanguagesScaffold | src/extension.ts:52-54 | every offered language gets its own extension and a real template, never the fallbacks |
| Url.SlugLength | src/extension.ts:16 | the greedy slug covers only slug characters and stops at the first other character |
| Url.ParseSlugAndTail | src/extension.ts:16 | a non-empty slug, then either the end or "/" and a tail without line terminators, rebuilding the input |
| Url.MatchUrl | src/extension.ts:16 | every URL the matcher accepts is composed from well-formed parts, and those are the parts it returns |
| Url.MatchComplete | src/extension.ts:16 | every URL composed from well-formed parts is accepted and read back into the same parts |
| Url.ValidIffComposed | src/extension.ts:16 | the pattern accepts exactly the URLs composed from well-formed parts |
| Url.ComposeInjective | src/extension.ts:16 | distinct well-formed parts spell distinct URLs |
| Url.ValidUrlIsOneLine | src/extension.ts:16 | an accepted URL contains no line terminator |
| Url.SlugRequired | src/extension.ts:16 | nothing is accepted unless a slug character follows "/problems/" |
| Url.ParseSchemeComplete | src/extension.ts:16 | "https://" and "http://" are each read back as written |
| Url.ParseWwwComplete | src/extension.ts:16 | the optional "www." is read back as written |
| Url.ValidateInput | src/extension.ts:15-18 | no message exactly for a valid URL; otherwise the fixed hint |
| Commands.CheckPreconditions | src/extension.ts:69-96 | the checks run in order: missing files first, then no editor, then an unsupported language; the command proceeds only with a runnable language, carrying the found inputs.txt and outputs.txt paths, the editor's file path and the language detected from the editor |
| Commands.RunAndCompare | src/extension.ts:66-120 | the only information notice is "Test case passed!" |
| Commands.StopRunsNothing | src/extension.ts:72-96 | a stopped command's outcome depends on neither the process nor the file system |
| Commands.AfterCleanRun | src/extension.ts:106-118 | after a clean run, a read failure is reported as "Error: " plus its message; otherwise the verdict depends on the normalised outputs |
| Commands.PassedIff | src/extension.ts:106-110 | the test passes exactly when the checks pass, the process succeeds with empty standard error, the expected output is read, and both outputs normalise alike |
| Commands.RunFailureReported | src/extension.ts:106-118 | a failing process is reported as "Error: " plus standard error, before the expected output is read |
| Commands.MismatchReported | src/extension.ts:106-114 | a mismatch is an error whose message splits back into the normalised expected output and the normalised program output |

## Left out

- The VS Code API is not modelled. That covers command registration, the input box, the quick pick, workspace search, opening documents, notices and subscriptions. Their results are inputs to the model. Nothing is shown or executed.
- The `getTestCases` command flow (src/extension.ts:10-64) is not modelled beyond its language list and the scaffolded file's extension and template. That flow is I/O: `getTestCases` scrapes the network and its source is not part of this model, and `writeFile` and `openTextDocument` write and open files.
- `exec` and the shell semantics of the generated commands are not modelled. This includes quoting, compiling, spawning the process and the unbounded wait. `exec` is a parameter, and only the classification of what it reports is modelled.
- `fs.readFile` is a parameter that resolves with the file's text or rejects with a message. Encoding and I/O errors are not modelled.
- "First match wins" file discovery is not modelled: the workspace is given as the path of the first match, if any.
- Console logging is not modelled.
- Text.Trim: the whitespace set is fixed to the characters that are ECMAScript whitespace today. JavaScript's set follows the engine's Unicode version, and lone UTF-16 surrogates cannot be represented in a Dafny string.
- Url.MatchUrl: the pattern is matched on Unicode scalar values. JavaScript matches it on UTF-16 code units without the `u` flag, which gives the same answer for every string Dafny can represent.
- Commands.RunAndCompare: a rejection from the workspace search itself, which the same `catch` would report, is not modelled.
