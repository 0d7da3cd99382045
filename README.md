# Shared-step expander of `get_full_test_cases_from_api.py`

This project models in Dafny the one piece of real logic in the MagicPod
"get full test cases" tool: the **shared-step expander**, and the proofs of
what it does.

A test case's `human_readable_steps` is a block of lines. Some lines refer to
a shared step group, as `Shared step: <name>` or `共有ステップ: <name>`. The
expander rewrites the block as follows:

- Every line is kept, followed by `"\n"`.
- After each reference line, the expander inserts the referenced group's own
  steps, expanded recursively.
- The inserted block is indented by two spaces plus the reference line's own
  leading whitespace.
- The group is found by trying the name's candidates in order and using the
  first one that is a key of the name map. The candidates are the stripped
  name, then, when the name contains `(` and ends with `)`, the stripped
  text before its first `(`.

The total step count of the expanded text is the number of its lines that are
not references. The command builds a name map from the fetched shared steps,
in which a later group with the same name overrides an earlier one. It then
rewrites each fetched test case in place: it replaces the step text with its
expansion and sets `total_step_count`.

Modules, in dependency order:

- `Wrappers` (`wrappers.dfy`): `Option`.
- `Text` (`text.dfy`): the Python `str` operations that are used.
  - `strip` and `lstrip`, over the exact `str.isspace()` character set.
  - `startswith`.
  - `replace(old, new, 1)`.
- `LineText` (`lines.dfy`): line handling.
  - `str.splitlines()` with Python's full set of line boundaries (`\r\n`
    counts as one boundary), with and without `keepends`.
  - The "line plus newline" join.
  - `textwrap.indent` with its default predicate, which leaves
    whitespace-only lines unprefixed.
  - The interleaving relation used to state ordering.
- `Extract` (`extract.dfy`): `extract_shared_step_name`.
- `NameCandidates` (`candidates.dfy`): the regular expression `\(.*\)$` as
  `re.search` and `re.sub` apply it, and the
  `shared_step_name_candidate_iterator` generator.
- `SharedSteps` (`shared_steps.dfy`): the shared step record and the name
  map.
- `Expander` (`expander.dfy`): name resolution, and the three mutually
  recursive expansion functions with the methods that implement their loops.
- `ExpanderProps` (`expander_props.dfy`): a line-level reference definition of
  the expansion, and the properties proved with it.
  - Ordering, indentation and resolution.
  - Idempotence on reference-free text.
  - Fuel monotonicity and non-termination on self-reference.
- `StepCount` (`step_count.dfy`): `calculate_total_step_count` and its
  properties, with worked scenarios.
- `TestCases` (`test_cases.dfy`): the test case records as objects, and the
  update loop of `_main`.

Modelling decisions:

- **No cycle guard.** Python recurses through `expand_shared_step` with no
  cycle guard, so a group that refers to itself never finishes. Python
  eventually raises `RecursionError`. Every expansion function here takes a
  `fuel` bound on how deeply groups nest, and returns `None` when the
  recursion would go deeper. No claim is made that the source terminates.
  Instead, `SelfReferenceNeverFinishes` proves that a self-reference yields
  `None` for every fuel. The fuel lemmas show that once an expansion
  succeeds, more fuel gives the same text.
- **Two candidates, not three.** The generator's docstring promises three
  candidates for `"Login (2) (email: xxx.com, password: 123456)"`, with
  `"Login (2)"` in the middle. The code yields only two. `re.search` finds
  the leftmost match of `\(.*\)$`, which always starts at the first `(`. So
  the single `re.sub` removes everything from that `(` to the end, and
  nothing matches afterwards. The model follows the code. See
  `DocstringExampleYieldsTwo` and `DocstringExampleSkipsNumbered`.
- **Trailing newline.** Every output line ends in `"\n"`, the last one
  included.
- **Unresolved references.** A reference whose name resolves to nothing adds
  nothing, and the reference line itself is never a step. So
  `"Shared step: Ghost\nDo thing"` with an empty map counts one step
  (`GhostScenario`).
- **Bare marker.** A line that is only a marker (`Shared step:`) names `""`,
  so it is a leaf and counts as a step.
- **Distinct records.** The test cases are distinct objects, because each
  decoded JSON record is its own dict. The update loop requires this.

## Model

| member | source | states |
|---|---|---|
| Text.LeadingWhitespace | get_full_test_cases_from_api.py:163 | `len(s) - len(s.lstrip())`: the length of the longest all-whitespace prefix of `s` |
| Text.StripSpec | get_full_test_cases_from_api.py:172 | `strip()` is the slice of `s` after its leading whitespace. What follows it is blank. It neither starts nor ends with whitespace, and it is empty exactly when `s` is blank |
| Text.StripEmptyIffBlank | get_full_test_cases_from_api.py:172 | `s.strip()` is empty if and only if `s` is all whitespace |
| Text.StripIsStripped | get_full_test_cases_from_api.py:212 | the result of `strip()` has no leading or trailing whitespace |
| Text.StripBlankPrefix | get_full_test_cases_from_api.py:163 | adding a whitespace prefix raises the leading-whitespace count by its length and does not change `strip()` or `lstrip()` |
| Text.ReplaceFirst | get_full_test_cases_from_api.py:176 | `replace(p, r, 1)` on a string that starts with `p` is `r` followed by the rest; with no occurrence the string is unchanged |
| Text.IndexOfFrom | get_full_test_cases_from_api.py:176 | the first occurrence at or after `k` that `replace` acts on, or none when there is no occurrence |
| LineText.SplitLines | get_full_test_cases_from_api.py:158 | `splitlines()` gives lines with no line boundary in them, and no lines only for the empty string (how they are cut from the text: `KeepEndsPieces`) |
| LineText.SplitLinesKeepEnds | get_full_test_cases_from_api.py:189-194 | `splitlines(True)`, as `textwrap.indent` uses it: non-empty pieces whose concatenation is the text |
| LineText.KeepEndsPieces | get_full_test_cases_from_api.py:158 | for any text: the keepends pieces put back together are the text; there are as many pieces as `splitlines()` lines; each piece is its line followed by `"\r\n"` or one line-boundary character, and only the last may have no boundary; a piece ending in a lone `"\r"` is never followed by one starting with `"\n"`. So the lines are exactly the text between its boundaries |
| LineText.SplitJoin | get_full_test_cases_from_api.py:158-159 | splitting the "line plus newline" text of boundary-free lines gives back those lines |
| LineText.JoinAppend | get_full_test_cases_from_api.py:157-159 | appending line by line: the text of `a + b` is the text of `a` followed by the text of `b` |
| LineText.SplitLinesCons | get_full_test_cases_from_api.py:158 | a boundary-free line followed by `"\n"` splits off as the first line |
| LineText.PrefixLines | get_full_test_cases_from_api.py:189-194 | each line gets the prefix unless it is whitespace-only, and the line count is unchanged |
| LineText.Indent | get_full_test_cases_from_api.py:189-194 | `textwrap.indent` never removes text, and leaves it unchanged when the prefix is empty or the text is whitespace only; which lines it prefixes is stated by `IndentJoin` |
| LineText.PrefixPiecesKeep | get_full_test_cases_from_api.py:189-194 | prefixing the `splitlines(True)` pieces only adds text, and adds none for an empty prefix or whitespace-only pieces |
| LineText.BlankWithNewline | get_full_test_cases_from_api.py:189-194 | a piece with its newline is whitespace-only exactly when the line is, so the default predicate of `textwrap.indent` sees the line |
| LineText.IndentJoin | get_full_test_cases_from_api.py:189-194 | `textwrap.indent` of the newline-terminated text of some lines is the text of those lines each prefixed unless whitespace-only |
| LineText.PrefixLinesNoBreaks | get_full_test_cases_from_api.py:189-194 | indenting lines by spaces adds no line boundary |
| LineText.InterleavesCons | get_full_test_cases_from_api.py:158-164 | putting a line and its block in front of an interleaved output keeps every input line followed immediately by its block |
| Extract.PrefixesExclusive | get_full_test_cases_from_api.py:171-177 | no text starts with both markers, so their order is immaterial |
| Extract.MarkerNoBreaks | get_full_test_cases_from_api.py:171 | neither marker contains a line boundary |
| Extract.SharedStepName | get_full_test_cases_from_api.py:169-177 | `extract_shared_step_name`: the name is always a suffix of the stripped line (its exact form: `SharedStepNameSpec`) |
| Extract.RemoveFirstPrefixSuffix | get_full_test_cases_from_api.py:174-177 | removing the first marker the text starts with leaves a suffix of the text |
| Extract.SharedStepNameSpec | get_full_test_cases_from_api.py:171-177 | the name is the stripped line with the marker it starts with removed, and is not stripped again; it is `""` when the stripped line starts with neither marker |
| Extract.ExtractSharedStepName | get_full_test_cases_from_api.py:169-177 | the loop over the markers with early return yields exactly the specified name |
| Extract.BareMarkerIsLeaf | get_full_test_cases_from_api.py:174-177 | a line that is exactly a marker after stripping names `""`, so it is not a reference |
| Extract.MarkedLineName | get_full_test_cases_from_api.py:172-176 | a marker followed by a rest that does not end in whitespace names exactly that rest, including its leading space |
| Extract.PrefixKeepsName | get_full_test_cases_from_api.py:172-176 | indenting a line with spaces does not change the name it refers to |
| NameCandidates.ClosingParen | get_full_test_cases_from_api.py:209 | the position of the `)` at which `\)$` can match, before the end or before a final newline |
| NameCandidates.LeftmostMatchFrom | get_full_test_cases_from_api.py:214 | the leftmost position at or after `k` where the pattern matches, with no match before it |
| NameCandidates.Search | get_full_test_cases_from_api.py:214 | `re.search`: the leftmost match, running from a `(` to the closing `)`; no match exactly when the pattern matches nowhere |
| NameCandidates.Sub | get_full_test_cases_from_api.py:215 | `re.sub` strictly shortens the text when there is a match, and leaves it unchanged otherwise |
| NameCandidates.Candidates | get_full_test_cases_from_api.py:210-216 | the yielded sequence starts with the stripped name |
| NameCandidates.LaterCandidatesAreStripped | get_full_test_cases_from_api.py:214-216 | every candidate yielded inside the while loop is stripped |
| NameCandidates.CandidatesAreStripped | get_full_test_cases_from_api.py:212-216 | every candidate is stripped |
| NameCandidates.CandidateNames | get_full_test_cases_from_api.py:198-216 | the generator's while loop yields exactly the candidate sequence |
| NameCandidates.FirstParen | get_full_test_cases_from_api.py:209 | the index of the first `(` |
| NameCandidates.NoParenNoMatch | get_full_test_cases_from_api.py:214 | a name without `(` never matches |
| NameCandidates.SearchOfTrailingGroup | get_full_test_cases_from_api.py:209-214 | for a newline-free name with a `(` that ends in `)`, the match runs from the first `(` to the end |
| NameCandidates.SearchWithoutTrailingGroup | get_full_test_cases_from_api.py:209-214 | a newline-free name that lacks a `(` or does not end in `)` does not match |
| NameCandidates.CandidatesOfLineName | get_full_test_cases_from_api.py:209-216 | for a newline-free name (every name taken from a line), the candidates are the stripped name, plus the stripped text before the first `(` exactly when the name contains `(` and ends with `)`; there are never more |
| NameCandidates.DocstringExampleYieldsTwo | get_full_test_cases_from_api.py:203-216 | the docstring example yields the full name and then `"Login"`; `"Login (2)"` is never yielded |
| SharedSteps.BuildNameMap | get_full_test_cases_from_api.py:283-285 | the keys are exactly the names that occur, and each name maps to the last group carrying it |
| Expander.FirstKnown | get_full_test_cases_from_api.py:182-188 | the candidate found is a key of the map |
| Expander.FirstKnownSpec | get_full_test_cases_from_api.py:182-188 | the candidate found comes before any other key in yield order; there is none exactly when no candidate is a key |
| Expander.FirstKnownAt | get_full_test_cases_from_api.py:182-188 | the first candidate that is a key is the one used |
| Expander.Resolve | get_full_test_cases_from_api.py:182-188 | a resolved name is a key of the map |
| Expander.ExpandReference | get_full_test_cases_from_api.py:180-195 | `expand_shared_step`: when no candidate of the name is a key, the reference contributes `""`; the resolved case is stated by `ReferenceResolvedTo`, `ResolveFirstKey` and `GroupIndentation` |
| Expander.ExpandSingleLine | get_full_test_cases_from_api.py:158-164 | one line expands to itself and `"\n"`, then its block |
| Expander.ExpandLinesAppend | get_full_test_cases_from_api.py:157-166 | the expansion of `a + b` is the expansion of `a` followed by that of `b`, and fails if either fails |
| Expander.ExpandPrefixStep | get_full_test_cases_from_api.py:158-164 | one iteration of the for loop appends the line, `"\n"` and the line's block to the accumulated `res` |
| Expander.ExpandPrefixNone | get_full_test_cases_from_api.py:158-164 | once a prefix of the lines does not finish, neither does the whole text |
| Expander.ReferenceResolvedTo | get_full_test_cases_from_api.py:185-194 | a reference that resolves to a key expands to that key's group, expanded and indented |
| Expander.ExpandText | get_full_test_cases_from_api.py:153-166 | `human_readable_steps_with_shared_steps_expanded`: a finished expansion is empty exactly when the text is empty, since every line is written out with `"\n"`; its full shape is stated by `LinesAgree`, `InputLinesInOrder` and `UnresolvedTextIsJoin` |
| Expander.ExpandSharedStep | get_full_test_cases_from_api.py:180-195 | the candidate loop with early return computes the specified expansion of one reference: the first known candidate's group, expanded and indented, or `""` |
| Expander.ExpandLine | get_full_test_cases_from_api.py:161-164 | the block after one line: its reference's expansion at indent 2 plus its leading whitespace, or `""` for a leaf |
| Expander.ExpandSteps | get_full_test_cases_from_api.py:153-166 | the for loop with `res +=` computes the specified expansion of the whole text |
| ExpanderProps.LinesAgree | get_full_test_cases_from_api.py:157-166 | the text-level expansion is the join of the line-level reference expansion, and its lines have no boundaries |
| ExpanderProps.BlockAgree | get_full_test_cases_from_api.py:161-164 | the same agreement for the block after one line |
| ExpanderProps.GroupAgree | get_full_test_cases_from_api.py:188-194 | the same agreement for an indented group |
| ExpanderProps.ExpandTextLines | get_full_test_cases_from_api.py:157-166 | the expanded text is the join of the expanded lines, and splitting it gives back those lines |
| ExpanderProps.UnresolvedLinesKept | get_full_test_cases_from_api.py:158-166 | when no line resolves, the expanded lines are the input lines, unchanged |
| ExpanderProps.UnresolvedTextIsJoin | get_full_test_cases_from_api.py:157-166 | when no line resolves, the output is the `splitlines()` lines, each followed by `"\n"` |
| ExpanderProps.ReferenceFreeTextIsJoin | get_full_test_cases_from_api.py:157-166 | text with no reference line expands to its lines, each followed by `"\n"`, for any map |
| ExpanderProps.UnresolvedExpansionIdempotent | get_full_test_cases_from_api.py:157-166 | when no line resolves, expanding the output again gives the same output |
| ExpanderProps.ExpandStartsWithFirstLine | get_full_test_cases_from_api.py:158-159 | the output starts with the first input line followed by `"\n"` |
| ExpanderProps.ExpandedLinesInterleave | get_full_test_cases_from_api.py:158-164 | the output lines are the input lines in order, each immediately followed by its own block |
| ExpanderProps.InputLinesInOrder | get_full_test_cases_from_api.py:158-164 | the lines of the expanded text are the input lines in order, each immediately followed by its block, and the block is empty for a line that does not resolve |
| ExpanderProps.GroupIndentation | get_full_test_cases_from_api.py:189-194 | an inserted block's lines are the nested expansion's lines with the indent prepended, except whitespace-only lines, and the block ends each line with `"\n"` |
| ExpanderProps.ResolveFirstKey | get_full_test_cases_from_api.py:182-188 | a name resolves exactly when some candidate is a key, and then to the first such candidate in yield order |
| ExpanderProps.ResolveStrippedKey | get_full_test_cases_from_api.py:182-188 | when the stripped name is a key, it is used |
| ExpanderProps.LineNameNoNewline | get_full_test_cases_from_api.py:158-161 | the name extracted from a `splitlines()` line holds no `"\n"`, so the newline-free lemmas about names apply to every reference line |
| ExpanderProps.ResolveStepName | get_full_test_cases_from_api.py:161-188 | the name on an input line resolves to its stripped form if that is a key, else to the stripped text before its first `(` if it ends in a parenthesised part and that is a key, else to nothing |
| ExpanderProps.ResolveLineName | get_full_test_cases_from_api.py:182-195 | a line's name resolves to its stripped name if that is a key, else to the stripped text before the first `(` if the name ends in a parenthesised part and that is a key, else to nothing |
| ExpanderProps.UnresolvedReferenceAddsNothing | get_full_test_cases_from_api.py:159-164 | an unresolved reference contributes `""`: its line stays verbatim and the rest follows directly |
| ExpanderProps.GroupedNameResolvesToBase | get_full_test_cases_from_api.py:182-188 | `"<base> (<x>)"` resolves to `base` when only `base` is a key |
| ExpanderProps.LoneLoginResolvesNumbered | get_full_test_cases_from_api.py:182-188 | with only `"Login"` in the map, `"Login (2)"` resolves to `"Login"` |
| ExpanderProps.DocstringExampleSkipsNumbered | get_full_test_cases_from_api.py:203-216 | the docstring's long name resolves to `"Login"` even when `"Login (2)"` is also a key, because that middle candidate is never tried |
| ExpanderProps.ExpandLinesFuelMonotone | get_full_test_cases_from_api.py:158-164 | a line expansion that finishes within some fuel gives the same text with any larger fuel |
| ExpanderProps.LineBlockFuelMonotone | get_full_test_cases_from_api.py:161-164 | the same for the block after one line |
| ExpanderProps.GroupFuelMonotone | get_full_test_cases_from_api.py:188-194 | the same for an indented group |
| ExpanderProps.ExpandTextFuelMonotone | get_full_test_cases_from_api.py:153-166 | the same for a whole text: more fuel never changes a finished expansion |
| ExpanderProps.SelfReferenceNeverFinishes | get_full_test_cases_from_api.py:190 | a one-line group that references itself does not finish for any fuel: there is no cycle guard |
| ExpanderProps.SelfNamedGroupNeverFinishes | get_full_test_cases_from_api.py:190 | the group `n` whose only step is `Shared step: n` never finishes expanding |
| StepCount.TotalStepCount | get_full_test_cases_from_api.py:220-231 | `calculate_total_step_count`: the number of `splitlines()` positions whose line has extracted name `""`, so at most the line count (which lines: `LeavesSpec`) |
| StepCount.LeavesSpec | get_full_test_cases_from_api.py:225-231 | the counted lines are the lines whose extracted name is `""`: each counted line is such a line, each such line is counted, and the count equals the number of positions holding such a line; so it is at most the line count, and equal to it exactly when no line is a reference |
| StepCount.LeavesMembers | get_full_test_cases_from_api.py:227-229 | every counted line is an input line whose extracted name is `""`, and every such input line is counted |
| StepCount.LeavesCardinality | get_full_test_cases_from_api.py:225-231 | the count equals the number of positions whose line is not a reference |
| StepCount.LeavesCount | get_full_test_cases_from_api.py:225-231 | the count is at most the line count, and equals it exactly when there is no reference line |
| StepCount.LeavesAppend | get_full_test_cases_from_api.py:227-229 | the comprehension's filter distributes over concatenation |
| StepCount.LeavesPrefixed | get_full_test_cases_from_api.py:229 | indenting lines does not change how many of them are steps |
| StepCount.ReferenceFreeCount | get_full_test_cases_from_api.py:225-231 | the count of a text without reference lines is its line count |
| StepCount.ReferenceFreeExpansionCount | get_full_test_cases_from_api.py:225-231 | a reference-free text expands, and the expansion's count is the original line count |
| StepCount.ExpandedStepCount | get_full_test_cases_from_api.py:225-231 | the steps of an expansion are the input's steps plus the steps inserted by the resolved references |
| StepCount.GroupStepCount | get_full_test_cases_from_api.py:189-194 | indenting an inserted group does not change its step count |
| StepCount.UnresolvedText | get_full_test_cases_from_api.py:159-164 | a reference that resolves to nothing, followed by a step, comes out verbatim and counts one step |
| StepCount.SingleGroupText | get_full_test_cases_from_api.py:153-231 | a reference at indent 2 to a group of two steps, followed by one step, expands to the reference, the two steps indented by two spaces, then the step; the count is 3 |
| StepCount.SingleGroupExpansion | get_full_test_cases_from_api.py:153-231 | the same for `Shared step: n` and the map `{n: group}` |
| StepCount.UnresolvedGroupExpansion | get_full_test_cases_from_api.py:195 | `Shared step: n` with an empty map adds nothing, and the text counts one step |
| StepCount.LoginScenario | get_full_test_cases_from_api.py:153-231 | `{"Login": "Enter username\nEnter password"}` and `"Shared step: Login\nClick submit"` give the two steps indented after the reference, and a count of 3 |
| StepCount.GhostScenario | get_full_test_cases_from_api.py:195 | `"Shared step: Ghost\nDo thing"` with an empty map is kept verbatim and counts 1 step |
| TestCases.TestCase.constructor | get_full_test_cases_from_api.py:281 | a fetched record holds its number and its step text, and has no step count yet |
| TestCases.UpdateTestCase | get_full_test_cases_from_api.py:287-294 | the record's step text becomes its expansion and its count becomes the count of that expansion; its number is unchanged; when the expansion does not finish, the record is unchanged |
| TestCases.ExpandEach | get_full_test_cases_from_api.py:286-294 | every record updated holds its expanded text and that text's count; the loop stops only at a record whose expansion does not finish; the later records and all numbers are unchanged |
| TestCases.ExpandTestCases | get_full_test_cases_from_api.py:283-294 | the same, with the name map built from the shared steps so that the last duplicate name wins |

## Left out

- `MagicPodAPIClient` and `_make_api_request` (lines 30-77) are left out. They
  are HTTP over `urllib`, authentication headers, JSON decoding and
  exception mapping, which is network I/O.
- The fetch and pagination loops of `CustomMagicPodAPIClient` (lines 80-149)
  are left out, because they depend on remote responses. The fetched shared
  steps and test cases are inputs of `ExpandTestCases` instead.
- The command line is left out: `main`, `argparse`, logging setup,
  `exit(1)` on a fetch error, and the `json.dumps` printing (lines 24-27 and
  235-300). These are I/O.
- A test case record is reduced to its number, its step text and its step
  count. Other JSON fields are untouched by the loop and are not
  represented.
- Non-termination on cyclic groups is not modelled as divergence. Python's
  eventual `RecursionError` is not modelled either. Both are replaced by the
  fuel bound and `None`.
- ExpandTestCases: it stops at the first record whose expansion needs more
  than `fuel` nesting levels. Where the source would recurse until
  `RecursionError`, this model leaves that record and the later records
  unchanged.
- Aliasing between test case records is excluded by the `Distinct`
  precondition. A decoded JSON list never shares a dict between two
  positions.
- Python's `re` module is not modelled in general. Only the one pattern
  `\(.*\)$` is modelled, under `re.search` and `re.sub`. There `.` excludes
  `\n`, and `$` also matches just before a final `\n`.
- NameCandidates.CandidatesOfLineName: the at-most-two-candidates statement
  is proved for names without `\n`. Every name taken from a `splitlines()`
  line is one (`LineNameNoNewline`). `Candidates` itself is defined for any
  text.
- Unicode case and normalisation play no part. Whitespace and line
  boundaries are the exact `str.isspace()` and `str.splitlines()` character
  sets, written out.
