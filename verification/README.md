# issue2pr core in Dafny

issue2pr turns GitHub issues into pull requests with the help of a code
generator. This project models the three parts of it that are plain logic:

- **The reply parser** `AIEngine.parse_code_changes` (ai_engine.py). It cuts
  the generator's reply into lines on `'\n'` and folds them through a state:
  the current file, the content lines gathered for it, and its latest
  explanation. It yields a list of `{file, content, explanation}` records.
  The model follows the code as written, not the reply format that the
  prompt asks for (ai_engine.py:43-49):
  - fence lines such as "```" are kept as content;
  - blank lines and every line starting with `#` are dropped;
  - a path given twice yields two entries;
  - a marker whose value strips to nothing resets the state but is never
    emitted, so its content is lost;
  - a marker's value is the text between the first `": "` and the next one,
    so `# explanation: fix: null check` yields `fix`;
  - the `IndexError` that `line.split(': ')[1]` raises on a marker without
    `": "` is a `Failure` naming the first such line.

  The parser is proved equal to an independent section-by-section reading
  (`Sections`). The listed properties are proved of that reading.
- **Issue statistics** `analyze_issues` (scripts/issue_analysis.py): label
  counts keyed by the original label name, a one-bucket-per-issue type
  classification with precedence bug > enhancement > question > other
  (case-insensitive), open and closed counts, the mean resolution time and
  the open ratio. The tallying loop is a method with loop invariants. It is
  proved against reference tallies defined by recursion.
- **Configuration check** `validate_config` (config.py). The environment is a
  map. `os.getenv` applies its default only when a name is absent. A missing
  or empty token is reported, with the names in dictionary order, before a
  repository without `/`.

Modules:

| file | module |
|---|---|
| wrappers.dfy | `Wrappers` (`Option`, `Result`, `Outcome`) |
| strings.dfy | `Strings` (Python's `startswith`, `find`, `split`, `join`, `strip`, `lower`) |
| response_parser.dfy | `ResponseParser` (the fold, the line classification, `Sections`, and the proof that they agree) |
| parser_properties.dfy | `ParserProperties` (what the entries are, for every reply) |
| parser_examples.dfy | `ParserExamples` (reply shapes and corner cases, each for all paths, texts and content) |
| issue_analysis.dfy | `IssueAnalysis` |
| config.dfy | `Config` |

## Model

| member | source | states |
|---|---|---|
| Strings.Split | ai_engine.py:80 | The first piece is the text before the first separator. There are two or more pieces iff the separator occurs. The pieces joined by the separator give back the input, and no piece contains the separator. |
| Strings.SplitJoinSingleChar | ai_engine.py:80 | Splitting the `'\n'`-join of lines that hold no `'\n'` on `'\n'` gives back exactly those lines. |
| Strings.Strip | ai_engine.py:88 | Only whitespace is removed: the input is whitespace, then the result, then whitespace. The result neither starts nor ends with whitespace. |
| Strings.StripIdempotent | ai_engine.py:88 | Stripping a stripped value changes nothing. |
| Strings.LowerAscii | scripts/issue_analysis.py:74-78 | The lowered name has the same length, and each character is lowered in place. |
| ResponseParser.MarkerValue | ai_engine.py:88 | The value is the text after the first `": "`, up to the next `": "` or the end of the line, with only whitespace removed, at both ends. The value neither starts nor ends with whitespace. |
| ResponseParser.MarkersExclusive | ai_engine.py:81-91 | No line is both a file marker and an explanation marker, so the order of the two tests does not matter. |
| ResponseParser.Classify | ai_engine.py:81-94 | A line raises iff it is a marker without `": "`. It is a file line iff it starts with `# file:` and does not raise, and likewise for explanation lines. It is content iff it is non-empty and does not start with `#`, and content is the line itself. |
| ResponseParser.ClassifyValue | ai_engine.py:88-92 | A file line carries the `MarkerValue` of its line as its path, and an explanation line carries it as its text. |
| ResponseParser.Run | ai_engine.py:80-94 | The loop completes iff no line raises. On failure the index is that of a raising line, with no raising line before it. |
| ResponseParser.ParseLines | ai_engine.py:73-103 | On lines, the parser succeeds iff no marker lacks `": "`, and then returns exactly the section-by-section reading. Otherwise it fails at the first malformed marker. |
| ResponseParser.Parse | ai_engine.py:73-80 | On the reply text: success iff the `'\n'`-split lines are well formed, and then the value is the section-by-section reading of those lines. |
| ResponseParser.Kept | ai_engine.py:93-94 | A text is kept iff it is a content line of the input, and nothing else is kept. |
| ResponseParser.KeptOne | ai_engine.py:93-94 | A single line is kept iff it is content, and then as itself. |
| ResponseParser.KeptAppend | ai_engine.py:93-94 | Keeping lines distributes over concatenation: content lines are kept in reading order, each as often as it occurs. |
| ResponseParser.Emit | ai_engine.py:82-87 | A section yields an entry iff its file is non-empty. The entry carries the file, the content lines joined by `'\n'`, and the explanation. |
| ResponseParser.LastExplanationAt | ai_engine.py:91-92 | Gives the position of the last explanation line, or -1. No explanation line follows it. |
| ResponseParser.RunAgreesWithSections | ai_engine.py:80-101 | Folding the lines from any state and flushing yields three parts: the state's entries, its pending section extended to the next file marker, and the sections after that. |
| ResponseParser.StepPreservesUnfolded | ai_engine.py:81-94 | One loop iteration leaves the eventual outcome unchanged. |
| ResponseParser.PreambleIgnored | ai_engine.py:76-90 | Lines before the first file marker belong to no entry. |
| ParserProperties.SectionsFollowFileLines | ai_engine.py:81-90 | The entries are named, in order, by the non-empty paths of the file lines. |
| ParserProperties.TokenizedPaths | ai_engine.py:81-88 | The non-empty paths of the file lines are the non-empty values of the `# file:` markers, in order. |
| ParserProperties.EntriesFollowMarkers | ai_engine.py:81-101 | A well-formed reply yields one entry per `# file:` marker with a non-empty value, in marker order. Empty values yield nothing, and repeated paths are not merged. |
| ParserProperties.NoMarkerNoEntries | ai_engine.py:80-103 | A reply without a `# file:` line yields no entry. It fails only on a malformed explanation marker. |
| ParserProperties.ParseJoinedLines | ai_engine.py:80 | Parsing the `'\n'`-join of lines that hold no `'\n'` is parsing those lines. |
| ParserProperties.EntryContentIsKeptLines | ai_engine.py:85-99 | Every entry's content is a `'\n'`-join of lines of the reply, each non-empty and not starting with `#`. |
| ParserExamples.MarkerLineValue | ai_engine.py:88 | The value of `# file: p` or `# explanation: p` is `p`, for any `p` without a colon or surrounding whitespace. |
| ParserExamples.ClassifyFileLine | ai_engine.py:81-88 | `# file: p` is a file line for `p`. |
| ParserExamples.ClassifyExplanationLine | ai_engine.py:91-92 | `# explanation: t` is an explanation line for `t`. |
| ParserExamples.FencedReply | ai_engine.py:80-101 | Take an opening fence, a file marker, an explanation and code, then a closing fence. The result is one entry: the code plus the closing fence, and the explanation. The opening fence is dropped. |
| ParserExamples.RepeatedPath | ai_engine.py:82-87 | A path named twice gives two entries, in order. |
| ParserExamples.EmptyPathLosesContent | ai_engine.py:82-90 | A marker with an empty value closes the previous entry. The content after it is lost. |
| ParserExamples.ExplanationBeforeMarkerDiscarded | ai_engine.py:88-92 | An explanation before a file marker is reset by that marker. |
| ParserExamples.EmptyContentKept | ai_engine.py:96-101 | A marker with nothing after it yields an entry with empty content and no explanation. Entries are not dropped for lack of content. |
| ParserExamples.MarkerWithoutSpaceFails | ai_engine.py:88 | `# file:path`, with no space, makes the parse fail on that line. |
| IssueAnalysis.TypeIsStrongestLabel | scripts/issue_analysis.py:73-81 | The if/elif chain gives the strongest type that any single label gives. |
| IssueAnalysis.TypePrecedence | scripts/issue_analysis.py:74-81 | In both directions: a bug iff some label lowers to `bug`. An enhancement iff none does and some label lowers to `enhancement`. A question iff neither and some label lowers to `question`. |
| IssueAnalysis.TypeMonotone | scripts/issue_analysis.py:74-81 | Adding labels never lowers an issue's precedence. |
| IssueAnalysis.TypeIgnoresOrder | scripts/issue_analysis.py:74-81 | The type depends only on which labels are present. |
| IssueAnalysis.TypeIgnoresCase | scripts/issue_analysis.py:74-78 | Names that agree once lowered classify alike. |
| IssueAnalysis.LabelNamesCount | scripts/issue_analysis.py:69-71 | There are as many label-name occurrences as labels over all issues. |
| IssueAnalysis.ResolveTimesCount | scripts/issue_analysis.py:84-88 | There is one resolution time per closed issue. |
| IssueAnalysis.TalliesAdd | scripts/issue_analysis.py:68-90 | Tallying two batches of issues in turn adds their label counts, type counts and closed counts. |
| IssueAnalysis.BucketsPartition | scripts/issue_analysis.py:73-81 | The four bucket counts sum to the number of issues. |
| IssueAnalysis.CountIssue | scripts/issue_analysis.py:69-90 | One iteration counts each label under its own name and one type. A closed issue (truthy `closed_at`) adds a resolution time; an open one increments the open count. |
| IssueAnalysis.CountIssues | scripts/issue_analysis.py:62-90 | The label counts are the multiset of all label names, and their total is the number of labels. The type counts are one type per issue and sum to the number of issues. open + closed is the number of issues. The resolution times are those of the closed issues, in order. |
| IssueAnalysis.Mean | scripts/issue_analysis.py:92 | Gives 0 for no samples, otherwise the number that times the count gives the sum. |
| IssueAnalysis.MeanWithin | scripts/issue_analysis.py:92 | The mean of samples in `[lo, hi]` lies in `[lo, hi]`. |
| IssueAnalysis.Ratio | scripts/issue_analysis.py:93-94 | Gives 0 for no issues, otherwise the number that times the total gives the part. It lies in `[0, 1]`. |
| IssueAnalysis.AnalyzeIssues | scripts/issue_analysis.py:51-96 | Gives the four results: label counts, the mean resolution time of the closed issues (0 if none), the type counts, and the open ratio. The ratio is 0 for no issues and lies in `[0, 1]`. |
| Config.Load | config.py:8-14 | A token is `os.getenv`'s result: absent gives `None`, and a set value, even empty, is kept. The repository is `owner/repo` only when `REPOSITORY` is absent. |
| Config.Missing | config.py:32-37 | A name is listed iff its token is absent or empty, and at most once: there are as many names as missing tokens. Only the two token names occur, `GITHUB_TOKEN` first. |
| Config.Validate | config.py:30-42 | Validation passes iff both tokens are non-empty and the repository contains `/`. Missing tokens are reported first, with their names. A bad repository is reported only when both tokens are present. |
| Config.DefaultRepositoryPasses | config.py:9-42 | With both tokens set and `REPOSITORY` unset, the default `owner/repo` passes. |
| Config.EmptyIsMissing | config.py:37-41 | A token set to the empty string is reported as missing. `REPOSITORY=""` fails the format check rather than falling back to the default. |
| Config.OneMissingMessage | config.py:37-39 | With exactly one token missing, the message names that token alone. |
| Config.BothMissingMessage | config.py:37-39 | With both tokens missing, the message names `GITHUB_TOKEN, OPENAI_API_KEY` in that order. |

`IssueAnalysis.TypeOf`, `IssueAnalysis.IsClosed`, `ResponseParser.Step`,
`ResponseParser.Flush` and `Config.Message` are definitions with no contract
of their own. Lemmas in the table characterise them:
- `TypeOf` (scripts/issue_analysis.py:74-81): `TypePrecedence` and `TypeIsStrongestLabel`.
- `IsClosed` (scripts/issue_analysis.py:84): `CountIssue` and `CountIssues`.
- `Step` (ai_engine.py:81-94): `StepPreservesUnfolded` and `RunAgreesWithSections`.
- `Flush` (ai_engine.py:82-87, 96-101): `RunAgreesWithSections`.
- `Message` (config.py:39): `OneMissingMessage` and `BothMissingMessage`.

## Left out

- The code generator calls and prompt text (ai_engine.py:14-71): network I/O and string templating.
- The other files of the repository (github_handler.py, issue_parser.py, close_issues.py, delete_branches.py, main.py, data_processing/, test_issue_processing.py): remote API wrappers, HTTP plumbing, pandas I/O and a manual integration script, with no logic of their own to state.
- `get_issues` and `generate_report` (scripts/issue_analysis.py): HTTP, printing and a file write.
- The module-level `REPOSITORY.split('/')` of scripts/issue_analysis.py:33-34: import-time configuration for the HTTP call, not part of `analyze_issues`.
- `datetime.strptime` on the two timestamps: the number of days between them is a parameter `days` of `AnalyzeIssues`.
- IssueAnalysis.AnalyzeIssues: the mean and the ratio are exact `real`s. The source computes Python floats, and returns the integer `0` rather than `0.0` when there is nothing to divide. Rounding is not modelled.
- Strings.LowerAscii: lowers ASCII capitals only. This is exact for comparisons with `bug`, `enhancement` and `question`. The only non-ASCII characters Python lowers to ASCII are U+212A, which becomes `k` (in none of the three words), and U+0130, which becomes two characters.
- ParserProperties.EntryContentIsKeptLines: states membership and kind, not order. Order and multiplicity come from `ResponseParser.ParseLines`, which equates the result with `Sections`, together with `ResponseParser.KeptAppend`.
- The `IndexError` of a marker without `": "` is a `Failure` value carrying the line's index. The exception's message is not modelled.
- The other settings read in config.py (`BRANCH_PREFIX`, `AI_ENGINE`, the Slack, Discord and webhook settings, `LOG_LEVEL`): no code in the modelled part reads them.
- `REPOSITORY` is a plain string: its default makes `os.getenv` never return `None`, so the source's `not REPOSITORY` test only catches the empty string.
- Loading the `.env` file (`load_dotenv`): the environment map is the result after loading.
