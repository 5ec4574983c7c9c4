# SMS action-line generator, modelled in Dafny

The repository turns a list of phone numbers into configuration lines for an
SMS routing action table. Its rule logic sits in two sequential passes:

- the **validator** (`filter_valid_numbers`, `processor.py`) keeps, in
  input order, the raw tokens made only of digits, `*` and `?`, and prints a
  warning for each other token without stopping;
- the **formatter** (`generate_actions`, `generator.py`) deletes every `?`
  from each number, keeps `*`, and splices the cleaned number and a
  destination string into a fixed action-line template, one line per number,
  in order.

Files:

- `processor.dfy` (module `Processor`): the character test `IsAllowedChar`,
  the token test `IsValid`, the specification functions `Filter` (kept
  tokens) and `Rejected` (warned-about tokens), the loop `FilterValidNumbers`
  proved equal to them, and lemmas on filtering.
- `generator.dfy` (module `Generator`): `Clean` (`number.replace("?", "")`),
  `FormatLine` (the template), the loop `GenerateActions` proved against
  `FormatLine`, lemmas on cleaning, and `ParseLine`, which reads a line back
  by its fixed layout, with the round trip from `FormatLine`.
- `pipeline.dfy` (module `Pipeline`): what validation followed by
  formatting guarantees.
- `sequences.dfy` (module `Sequences`): `IsSubsequence`, the "deleted some
  elements, kept the order of the rest" relation used by both components.

The template is the text of the f-string at `generator.py:36` after its
`{{`/`}}` escapes: `{ "?.?.` + cleaned number + `" }  : Actions SET_DEST_LA("`
+ destination + `"),SET_ESME_GROUP(SAG_GROUP_1, A_ADDR)`, with two spaces
before the colon. The destination is spliced in verbatim.

The model follows the code where it differs from the documented flow:
`processor.py:4-6` describes validation as a step before actions are
generated, but `main.py:60-63` formats the numbers it reads without calling
`filter_valid_numbers`. The two
functions are therefore modelled independently; `Pipeline` states what the
chain would guarantee.

## Model

| member | source | states |
|---|---|---|
| Processor.Filter | processor.py:30-43 | the kept tokens are never more than the input tokens, and every kept token contains only digits, `*` or `?` |
| Processor.Rejected | processor.py:38-40 | the warned-about tokens are never more than the input tokens, and each of them contains a character other than a digit, `*` or `?` |
| Processor.FilterValidNumbers | processor.py:11-43 | the loop returns exactly `Filter(numbers)`, and the tokens it warns about are exactly `Rejected(numbers)`, in order |
| Processor.FilterConcat | processor.py:33-37 | filtering distributes over concatenation: filter(a + b) = filter(a) + filter(b) |
| Processor.RejectedConcat | processor.py:38-40 | the warnings for a + b are the warnings for a followed by those for b |
| Processor.FilterPartition | processor.py:33-40 | each input token is either kept or warned about: the two counts add up to the input length and the two multisets add up to the input's |
| Processor.FilterMembership | processor.py:35-37 | a string is in the result if and only if it is in the input and valid |
| Processor.RejectedMembership | processor.py:35-40 | a string is warned about if and only if it is in the input and invalid |
| Processor.EmptyTokenKept | processor.py:35 | the empty token is valid by vacuous truth and is kept whenever it occurs |
| Processor.FilterSubsequence | processor.py:33-37 | the result is the input with some tokens deleted and the rest in their original order |
| Processor.FilterPosition | processor.py:33-37 | a valid token at index i appears in the result at the index equal to the number of tokens kept before i |
| Processor.FilterSkipsInvalid | processor.py:38-40 | an invalid token contributes nothing: the result is what is kept before it followed by what is kept after it |
| Processor.FilterFixedPoint | processor.py:33-43 | filtering returns its input unchanged if and only if every input token is valid |
| Processor.FilterIdempotent | processor.py:33-43 | filtering an already filtered list returns it unchanged |
| Generator.Clean | generator.py:34 | the cleaned number is no longer than the number and contains no `?` |
| Generator.CleanConcat | generator.py:34 | deleting `?` distributes over concatenation |
| Generator.CleanCounts | generator.py:28-34 | every character other than `?` occurs in the cleaned number exactly as often as in the number, and `?` not at all |
| Generator.CleanKeepsStars | generator.py:28-34 | the cleaned number has exactly as many `*` as the number |
| Generator.CleanSubsequence | generator.py:34 | the surviving characters keep their relative order |
| Generator.CleanIdentity | generator.py:34 | a number without `?` is left unchanged |
| Generator.CleanIdempotent | generator.py:34 | cleaning twice is cleaning once |
| Generator.FormatLineLayout | generator.py:36 | a line is the fixed prefix, the cleaned number (no `?`), the fixed middle, the destination verbatim and the fixed suffix, at exactly these offsets and with this length |
| Generator.GenerateActions | generator.py:13-38 | one line per number (so none for an empty list), and line i is `FormatLine(numbers[i], dest)`: order kept, no state carried between numbers |
| Generator.ParseLine | generator.py:36 | any line accepted when read back by fixed layout is the template around the fields returned, and the number field holds no double quote |
| Generator.FormatParseRoundTrip | generator.py:36 | when the cleaned number holds no double quote, reading the line back gives the cleaned number and the destination, whatever characters the destination holds |
| Generator.DocumentedExample | generator.py:24-25 | number `27840037335*` with destination `cellfsc` yields the documented line character for character |
| Generator.StarOnlyExample | generator.py:33-36 | a number that is only `*` keeps it, and its line reads back as `*` with the destination |
| Pipeline.CleanValidNumber | processor.py:35 | a valid token, once cleaned, holds only ASCII digits and `*` |
| Pipeline.ValidatedLinesReadBack | generator.py:31-37 | chaining validator and formatter gives no more lines than raw tokens, and each line reads back as its token's digits and `*` plus the destination |
| Pipeline.MixedInputExample | processor.py:33-40 | for `["123?456*", "abc123"]` the letter token is warned about, the other kept, and its line with `cellfsc` reads back as `123456*` and `cellfsc` |

## Left out

- Processor.IsAllowedChar: accepts the ASCII digits `0`-`9` only, whereas Python's `str.isdigit` at `processor.py:35` also accepts other Unicode digits (superscripts, Arabic-Indic numerals and so on); the model narrows validity to ASCII.
- The warning text printed at `processor.py:40` is not modelled as output; the rejected tokens are returned as a second sequence instead, in the order the warnings appear.
- `main.py`: reading the destination from the command line with its default `cellfsc`, resolving the file paths, the existence check and the summary prints are I/O and orchestration; the destination becomes a plain parameter.
- `io_utils.py`: `read_numbers` and `write_output` are file I/O, and their line splitting and whitespace stripping are Python library behaviour; so the model does not capture that empty lines never reach the validator.
- `__init__.py` holds only a docstring.
- Generator.Clean: models `str.replace("?", "")` only for its one use, a single-character pattern, where it deletes every occurrence; general substring replacement is not modelled.
- The destination is spliced in unescaped, as the source does; a destination holding a double quote makes the line ambiguous for a consumer, which the round trip reflects by reading the destination from the end of the line.
- Python strings are modelled as Dafny `string` (`seq<char>`); no encoding is modelled.
