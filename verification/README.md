# USMLE question generator: reply parsing and batch accumulation

`generate_questions.py` asks a chat model five times for one pediatric
USMLE-style question. Each answer should be a single comma-separated row. The
script strips each reply, splits it on `,`, keeps the first twelve fields of
every reply that has at least twelve, and writes the accepted rows to a CSV
file under twelve fixed column names. It also defines a helper,
`generate_record_id`, that makes a short upper-case id from a UUID. No code
calls that helper: the `record_id` column is the first field of each reply.

This project models the pure logic of that script in Dafny:

- `StrSplit` (`str_split.dfy`): Python's `s.split(",")` and `",".join(parts)` on
  strings of code points, with both round trips.
- `StrStrip` (`str_strip.dfy`): Python's `s.strip()`, using the full set of code
  points that `str.isspace()` accepts.
- `Replies` (`replies.dfy`): the twelve-field row parser `ParseRow`, with an
  exact description of which lines it accepts and what it returns.
- `Batch` (`batch.dfy`): `SUBJECTS`, the choice of a subject, the fold
  `Collect` over the reply lines, and the five-iteration loop `RunBatch`. The
  reply lines (the stripped values `generate_question` returns) and the random
  picks are inputs.
- `RecordIds` (`record_ids.dfy`): the unused helper `uuid4().hex[:6].upper()`,
  taking the hex text as input.
- `Prompts` (`prompts.dfy`): the question prompt. As written, the prompt
  never contains the chosen subject (see Findings).
- `Wrappers` (`wrappers.dfy`): the `Option` type for rejected replies.

## Model

| member | source | states |
|---|---|---|
| StrSplit.Split | generate_questions.py:93 | a line with n commas splits into exactly n + 1 parts, and no part holds a comma (the empty line gives one empty part) |
| StrSplit.SplitJoin | generate_questions.py:93 | joining the parts of a split back with `,` reproduces the line exactly |
| StrSplit.JoinSplit | generate_questions.py:93 | splitting the join of a non-empty list of comma-free parts gives back that list |
| StrSplit.SplitAroundComma | generate_questions.py:93 | splitting `a + "," + b` is the split of `a` followed by the split of `b` |
| StrSplit.JoinCommaCount | generate_questions.py:93 | the join of k comma-free parts holds exactly k - 1 commas |
| StrStrip.Strip | generate_questions.py:68 | the stripped reply is the slice of the reply that starts after its leading whitespace; everything after the slice is whitespace; a non-empty result neither starts nor ends with whitespace |
| StrStrip.StripKeepsCommas | generate_questions.py:68 | stripping removes no comma, so it never changes whether a reply is accepted |
| StrStrip.StripIdempotent | generate_questions.py:68 | stripping an already stripped reply changes nothing |
| Replies.ParseRow | generate_questions.py:93-95 | a line is accepted if and only if it holds at least 11 commas (at least 12 parts); an accepted row has exactly 12 comma-free fields |
| Replies.ParseRowIff | generate_questions.py:93-95 | the parser returns `fields` exactly when `fields` are 12 comma-free fields whose join is the whole line, or is followed in the line by a comma, so the row is the first twelve parts in their order |
| Replies.FormatParse | generate_questions.py:93-95 | twelve comma-free fields written out with commas parse back to the same twelve fields |
| Replies.ParseRowDropsExtra | generate_questions.py:95 | whatever the model returns after the twelfth field is dropped, and the first twelve fields are kept |
| Batch.Range | generate_questions.py:12 | `list(range(lo, hi))` has hi - lo elements, and element i is lo + i |
| Batch.SubjectsRange | generate_questions.py:12 | a number is in `SUBJECTS` if and only if it lies in 1..22 |
| Batch.ChooseSubject | generate_questions.py:91 | any choice from `SUBJECTS` is a subject number in 1..22 |
| Batch.Collect | generate_questions.py:88-95 | the accumulated batch has no more rows than there are replies, and every row has 12 comma-free fields |
| Batch.CollectOne | generate_questions.py:94-95 | a single reply contributes its parsed row when it is accepted and nothing when it is rejected |
| Batch.CollectAppend | generate_questions.py:88-95 | accumulating two runs of replies gives the rows of the first run followed by the rows of the second, so rows keep the order of their replies |
| Batch.CollectPrefixStep | generate_questions.py:90-95 | one more loop iteration extends the batch by exactly that reply's contribution, at the end |
| Batch.CollectCount | generate_questions.py:90-95 | the batch holds exactly one row per reply with at least 11 commas |
| Batch.CollectFitsColumns | generate_questions.py:95-101 | every accumulated row has as many fields as the table has column names |
| Batch.AcceptReply | generate_questions.py:94-95 | one iteration keeps the earlier rows unchanged and adds at most one row at the end; it adds one exactly when the line holds at least 11 commas, and the added row is the twelve fields the line starts with |
| Batch.AcceptStepCollects | generate_questions.py:94-95 | every step with those four properties is one step of the fold: the new rows are the old rows followed by the line's contribution to `Collect` |
| Batch.RunBatch | generate_questions.py:88-95 | the loop runs five times; iteration i takes the subject at pick i of `SUBJECTS`, so each is in 1..22; its rows are the fold over the five reply lines in order, so there are at most five rows |
| RecordIds.Upper | generate_questions.py:21 | upper-casing keeps the length, leaves no lower-case ASCII letter and changes nothing except letter case |
| RecordIds.RecordId | generate_questions.py:20-21 | the id has length min(6, length of the hex text), holds no lower-case ASCII letter, and its characters are the first characters of the hex text, ignoring case |
| RecordIds.RecordIdFormat | generate_questions.py:21 | from lower-case hex text of length at least 6, the id is six characters from `0-9A-F` |
| RecordIds.RecordIdRoundTrip | generate_questions.py:21 | lower-casing the id gives back the first six hex digits |
| RecordIds.RecordIdSameIff | generate_questions.py:21 | two UUIDs get the same id if and only if their first six hex digits agree |
| Prompts.PromptAsWritten | generate_questions.py:23-33 | the prompt holds the literal text `{subject_number}` where the subject number should be |
| Prompts.PromptIgnoresSubject | generate_questions.py:23-33 | as written, any two subjects get the same prompt, while the intended prompts for subjects 1 and 22 differ |
| Prompts.Prompt | generate_questions.py:33 | the intended prompt holds the subject's decimal digits in place of the placeholder |
| Prompts.DecimalRoundTrip | generate_questions.py:33 | reading the decimal rendering of a number gives back the number |
| Prompts.PromptDeterminesSubject | generate_questions.py:33 | two intended prompts from one template are equal if and only if their subjects are equal |

## Left out

- The chat-completion call (generate_questions.py:10, :61-67). The network call becomes the `lines` input of `RunBatch`: the text `generate_question` returns after `.strip()`. `StrStrip.Strip` models that strip on its own, and `StrStrip.StripKeepsCommas` shows that it cannot change whether a reply is accepted. Model name and temperature are not modelled.
- Batch.RunBatch: models only runs in which all five calls return text. The loop at generate_questions.py:90-95 has no `try`/`except`. So if the call at :63 raises, or `.strip()` at :68 meets a missing message content, the exception leaves `main` before `to_csv` at :102. Then no file is written, no email is sent, and the rows accepted in earlier iterations are lost. There is no per-row isolation, and that abort path is not modelled.
- The randomness of `random.choice` and `uuid.uuid4` (generate_questions.py:21, :91). The random index and the hex text are inputs. Only the range and format facts are modelled, not the distributions.
- The email message and SMTP delivery (generate_questions.py:71-84), because they are network I/O.
- `os.makedirs`, the pandas `DataFrame` and `to_csv` (generate_questions.py:87, :97-102), because they are library and file-system I/O. Only the match between the twelve column names and the twelve parsed fields is modelled (`Batch.CollectFitsColumns`). CSV quoting of fields is not modelled.
- Environment variables, the date and the file name (generate_questions.py:13-18), because they are configuration and the clock.
- The wording of the prompt (generate_questions.py:23-57). It is a constant. `Prompts.Template` abstracts it as the text before and the text after the placeholder.
- The wider pipeline: ledger and fingerprint deduplication, resuming across runs, extracting a structured span from the reply, validating `correct_answer`, and retry with backoff. generate_questions.py has no code for any of these, so they are not part of this model. The model follows the code: a reply is accepted only by its field count.
- RecordIds.Upper: upper-cases ASCII letters only, because Python's full Unicode case mapping is not modelled. UUID hex text is pure ASCII, so record ids are unaffected.
- StrSplit.Split: works on Dafny `char` values (Unicode scalar values). Python strings may also hold lone surrogate code points, which are not modelled.

## Findings

| source | as written | input that shows it | evidently intended | confidence | as-written member | corrected member |
|---|---|---|---|---|---|---|
| generate_questions.py:23-33 | `get_question_prompt` returns a plain triple-quoted string. The string is not an f-string and is not passed through `.format`, so `{subject_number}` is sent to the model literally. | subjects 1 and 22 (any two subjects) produce the identical prompt | the prompt names the randomly chosen subject number in place of the placeholder | high; not executed | Prompts.PromptIgnoresSubject | Prompts.PromptDeterminesSubject |

Since the replies are inputs of `RunBatch`, no other part of the model depends on the prompt.
