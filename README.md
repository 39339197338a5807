# code-review-prep: changed-file parsing and review-summary data, in Dafny

This project models the two parts of the code-review-prep tool that hold logic:

- **`BranchAnalyzer.get_changed_files`** (`analyzer.dfy`, module `Analyzer`).
  It resolves the base ref, then the target ref. Each is tried as a local
  head, then as `origin/<name>`, then as any commit-ish, and otherwise fails
  with a "does not exist locally or on origin" error. It then reads
  `git diff --name-status` output into a path-to-status map and
  `git diff --numstat` output into one record per line with at least three
  tab-separated fields,
  `{file, status, additions, deletions}`.
  The two loops are methods (`BuildStatusMap`, `ParseNumstat`). Each is proved
  equal to a specification function (`StatusMapOf`, `NumstatRecords`), and the
  lemmas state what those functions guarantee.
- **`ReviewReporter`'s data assembly** (`reporter.dfy`, module `Reporter`).
  This covers the file/line totals of `_sum_stats` and the rows of the
  category and focus tables. It also covers the checklist text, the ordered
  concerns list and the list of sections `print_summary` prints. Tables are
  sequences of rows and text blocks are strings.

`text.dfy` (module `Text`) gives the Python string operations the parser
relies on, restricted to ASCII: `split`, `splitlines`, `strip`, `isdigit`
with `int`, `str(n)` and `join`, each with lemmas that characterise it.
`wrappers.dfy` holds `Option` and `Result`.

The repository object is replaced by a value, `Analyzer.Repository`. It holds:

- the local head names;
- origin's ref names, or `None` when listing them raised;
- a predicate telling whether `repo.commit(name)` succeeds;
- the text the two `git diff` calls print for a revision range
  `"<base>..<target>"`.

The docstring of `get_changed_files` (src/analyzer.py:14) gives the status
as `A|M|D`, but the code copies the first name-status field verbatim, and the
model follows the code: a rename line (`R100\told\tnew`), for example, maps
the old path to `R100`. The remote consulted is always `origin`.

## Model

| member | source | states |
|---|---|---|
| Analyzer.ResolveRef | src/analyzer.py:17-40 | Succeeds iff the name is a local head, or `origin/<name>` is an origin ref, or the name resolves as a commit. A local head is returned unchanged even if `origin/<name>` exists. Otherwise `origin/<name>` is preferred. Found only as a commit, the name is returned unchanged. A failure to list origin refs never yields `origin/…`. Failure carries the ref-not-found message |
| Analyzer.RefNotFoundMentions | src/analyzer.py:37-40 | The error message contains the ref name and "locally or on origin" |
| Analyzer.GetChangedFiles | src/analyzer.py:42-74 | An unresolvable base fails first, with the base's message. Then an unresolvable target fails with its own message. It succeeds iff both resolve, and then returns the numstat records of the `base..target` diff, with statuses from that diff's name-status map |
| Analyzer.BuildStatusMap | src/analyzer.py:47-51 | The loop builds exactly `StatusMapOf(lines)` |
| Analyzer.StatusMapKeys | src/analyzer.py:48-51 | A path has an entry iff some line with at least two tab-separated fields has it as its second field. Shorter lines contribute nothing |
| Analyzer.StatusMapLastWins | src/analyzer.py:48-51 | A path's status is the first field, verbatim, of the last line naming it: later lines overwrite earlier ones |
| Analyzer.StatusLineRoundTrip | src/analyzer.py:49-51 | A line `status<TAB>path` maps `path` to `status`, whatever the status text is, provided neither contains a tab |
| Analyzer.CountOf | src/analyzer.py:62-63 | A field that is not all digits (e.g. `-` for binary files, or empty) counts 0. A canonical digit string counts the number whose decimal form it is |
| Analyzer.CountOfLeadingZero | src/analyzer.py:62-63 | A leading zero does not change a count, whatever the field: `int("007") == int("7")`, and a field that is not all digits stays 0 |
| Analyzer.NumstatRecordPadded | src/analyzer.py:57 | Whitespace before or after a numstat line (a carriage return, trailing blanks) does not change the record it yields |
| Analyzer.ParseNumstat | src/analyzer.py:55-72 | The loop produces exactly `NumstatRecords(lines, statusMap)` |
| Analyzer.CollectAppend | src/analyzer.py:56-72 | Records of concatenated output are the concatenated records, so lines are read independently and in input order |
| Analyzer.CollectBound | src/analyzer.py:56-59 | At most one record per line |
| Analyzer.CollectAllRead | src/analyzer.py:56-72 | When every line is accepted, there is exactly one record per line, and record k is line k's |
| Analyzer.CollectNoneRead | src/analyzer.py:57-59 | When no line has three fields, there are no records |
| Analyzer.CollectOrigin | src/analyzer.py:56-72 | Every record is what the parser made of some input line |
| Analyzer.NumstatRecordsOrigin | src/analyzer.py:57-64 | Every parsed record comes from a line with at least three fields, has that line's third field as its file, and its status is the map's entry or "M" |
| Analyzer.NumstatLineRoundTrip | src/analyzer.py:56-72 | The line `a<TAB>d<TAB>path` that git prints for a text file parses back to the record (path, status-or-"M", a, d). This holds for a path with no tab or line feed that does not end in whitespace |
| Analyzer.NumstatTextRoundTrip | src/analyzer.py:54-74 | Parsing the numstat text printed for a list of records gives back those records, in order, with statuses from the name-status map. Every path must be non-empty, without a tab or line feed, and not end in whitespace |
| Text.Split | src/analyzer.py:49 | `split("\t")` yields at least one piece, and no piece contains the separator |
| Text.JoinSplit | src/analyzer.py:49 | Joining the pieces of a split with the separator restores the line |
| Text.SplitJoin | src/analyzer.py:57 | Splitting a join of separator-free pieces restores the pieces |
| Text.Lines | src/analyzer.py:48 | `splitlines` pieces contain no line feed. There are no more pieces than characters, and none for empty text |
| Text.LinesTerminated | src/analyzer.py:56 | Splitting line-feed-terminated lines restores the lines: no empty line is produced after the final break |
| Text.LinesAgreeWithSplit | src/analyzer.py:48 | For non-empty text not ending in a line feed, `splitlines` equals `split("\n")` (on empty text, `splitlines` gives no piece and `split` gives one empty piece) |
| Text.TerminatedAppend | src/reporter.py:54-56 | Terminating one more line appends it and its line feed |
| Text.Strip | src/analyzer.py:57 | The stripped text neither starts nor ends with whitespace |
| Text.StripRemovesOnlySpace | src/analyzer.py:57 | `strip` removes only whitespace, and only at the two ends |
| Text.StripPadded | src/analyzer.py:57 | Whitespace around a text does not change what `strip` returns |
| Text.StripUnchanged | src/analyzer.py:57 | Text without surrounding whitespace is unchanged by `strip` |
| Text.StripIdempotent | src/analyzer.py:57 | Stripping twice is stripping once |
| Text.NatToDecimal | src/reporter.py:33-34 | `str(n)` is all digits, with no leading zero except for "0" itself, and has one digit iff n < 10 |
| Text.DecimalOfNatToDecimal | src/analyzer.py:62 | `int(str(n)) == n` |
| Text.NatToDecimalOfDecimal | src/analyzer.py:62 | `str(int(s)) == s` for a digit string without a leading zero |
| Text.DecimalValueLeadingZero | src/analyzer.py:62 | `int("0" + s) == int(s)` for a digit string |
| Text.JoinEmpty | src/reporter.py:108-109 | A join of non-empty names is empty iff there are no names |
| Reporter.SumStats | src/reporter.py:16-21 | `files` is the number of entries. Each entry's additions and deletions, a missing key counting 0, are at most the totals. A total is 0 iff every entry's count is 0. No entries give all zeros, and one entry gives its own counts (with `SumStatsAppend`, this fixes the totals as the sums) |
| Reporter.SumBounds | src/reporter.py:18-19 | Every term is at most the sum, and the sum is 0 iff every term is |
| Reporter.SumAppend | src/reporter.py:18-19 | The sum over two lists is the sum of the sums |
| Reporter.SumStatsAppend | src/reporter.py:16-21 | The statistics of two lists together are the component-wise sums of their statistics |
| Reporter.RenderFocus | src/reporter.py:23-36 | The row-by-row loop gives exactly `FocusRows(focus)` and stops with a failure at the first entry without a file |
| Reporter.FocusRowsFaithful | src/reporter.py:29-35 | The table fails iff some entry has no file. Otherwise it has one row per entry, in order, with the file as given and the status, or "?" when missing. The + and − cells are canonical digit strings (no leading zero, as `str` prints) that read back as the entry's counts, 0 when missing |
| Reporter.RenderCategories | src/reporter.py:38-50 | The eight `add_row` steps give exactly `CategoryRows(categories)` |
| Reporter.CategoryRowsCounts | src/reporter.py:42-49 | Exactly eight rows in the order Added, Modified, Deleted, Code files, Tests, Docs, Config, Dependencies. Each count is a canonical digit string that reads back as the size of its category, and an absent category shows "0" |
| Reporter.RenderChecklist | src/reporter.py:52-57 | The loop appending "□ " and then item + line feed gives exactly `ChecklistText(items)` |
| Reporter.ChecklistTextEmpty | src/reporter.py:52-57 | The text is empty iff there are no items |
| Reporter.ChecklistTextLines | src/reporter.py:52-57 | For items without a line feed, the text read line by line gives back "□ " + item for each item, in order |
| Reporter.TouchedAreas | src/reporter.py:108 | A name is listed iff some area has that name and a non-empty file list. There are no more names than areas |
| Reporter.TouchedAreasAppend | src/reporter.py:108 | Touched areas keep the mapping's order |
| Reporter.Applicable | src/reporter.py:99-112 | Keeps only candidates that apply: it is empty iff none applies, and every kept text belongs to an applicable candidate |
| Reporter.ConcernsUnfold | src/reporter.py:99-112 | The concerns are, in this order, the large-change, new-dependency, sensitive-area and missing-tests concerns, each present only when it applies |
| Reporter.BuildConcerns | src/reporter.py:99-112 | The conditional appends give exactly `Concerns(risks)` |
| Reporter.ConcernsOrder | src/reporter.py:99-112 | At most four concerns. "<n> large files changed (≥100 LOC churn)", with n the number of large changes, comes first when there are any. The missing-tests concern comes last when it applies. There are none iff every list is empty and the area list is empty |
| Reporter.SensitiveConcernApplies | src/reporter.py:106-110 | The sensitive-area concern applies only when some area has files. When no area name is empty, it applies exactly then |
| Reporter.PrintSummary | src/reporter.py:59-134 | Title, overview and category table always come first. Then come the focus table, concerns and checklist, each only when non-empty. A focus entry without a file stops the summary right after the category table |

## Left out

- GitPython (`Repo`, `repo.heads`, `origin.refs`, `repo.commit`, `repo.git.diff`): foreign calls. They become the fields of `Analyzer.Repository`. The `BranchAnalyzer` constructor, which opens the repository at a path, is left out with them.
- rich rendering (`Console`, `Table`, `Panel`, `Rule`, colours, emoji, the "• " bullet before each concern, blank lines): terminal I/O. Only the data each section holds is modelled.
- src/categorizer.py: both methods raise NotImplementedError, so there are no classification or risk rules to model. The `Risks` and category inputs of the reporter are arbitrary values.
- src/cli.py, setup.py and the tests: argument wiring, packaging and a subprocess run, with no logic of the core.
- Text.Lines: splits on `\n` only, whereas Python's `splitlines` also breaks on `\r`, `\r\n`, `\v`, `\f`, 0x1c to 0x1e and Unicode line separators. git's diff output uses `\n`.
- Text.Strip: trims ASCII whitespace only, not the Unicode spaces Python's `strip` also removes.
- Analyzer.CountOf: accepts ASCII digits only, whereas Python's `isdigit` also accepts other Unicode digits.
- Reporter.SumStats: entry counts are natural numbers. A negative or non-integer value in a dictionary is not modelled.
- Reporter.PrintSummary: a `summary` or `risks` dictionary missing one of its required keys is not modelled. A missing `diff_data`, `risks` or `categories` raises a KeyError before anything is printed (src/reporter.py:60-63). A missing `risks` key raises part-way through: `estimate_minutes` after the title (line 77), `focus_areas` after the overview and category tables (line 89), and the four concern keys after the focus table (lines 100-111). The datatypes always carry every key; only the optional `checklist` key and the per-entry keys may be absent. Lists are the only values whose truthiness is modelled.
- Analyzer.GetChangedFiles: `baseBranch` defaults to "main" as in the source. The paths in the records are whatever git printed; git's quoting of unusual paths is not modelled.
