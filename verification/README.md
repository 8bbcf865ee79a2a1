# Indonesian dictionary definition generator — a Dafny model

The program asks a locally running language model (served by Ollama, model
`llama3.2:3b`) for a dictionary-style definition of each Indonesian word in a list. It
cleans each answer, pairs it with a reference definition when one is available, and
collects one record per word. This project models the three parts that decide what
ends up in those records. It then proves properties of that model.

- **Cleaning** (`clean_definition`). Five steps run in order, and each one ends by
  stripping whitespace:
  1. remove a leading `word:`, with the word matched in any case;
  2. remove a bare leading `:`;
  3. remove the word again, together with a sense number and a period;
  4. remove a leading enumeration such as `1.`;
  5. remove the lead-ins `definisi:`, `arti:`, `makna:` and `pengertian:`, each checked
     once, in that order.

  In `cleaner.dfy`, steps 1 to 4 are written the way the source writes them: as a
  substitution of an anchored regular expression, followed by a strip; step 3 runs only
  when the lower-cased text starts with the lower-cased word. Step 5 is a lower-cased
  prefix test for each lead-in and a cut of that many characters. `regex.dfy` gives
  those expressions Python's backtracking meaning. `text.dfy` holds the characters,
  whitespace runs, stripping and decimal rendering that they rely on.
- **Generation with retries** (`generate_definition_ollama`), in `generator.dfy`. One
  prompt, always the same, is posted up to `max_retries` times:
  - the first successful reply is stripped, cleaned and returned;
  - a failed attempt is followed by a 2-second pause unless it was the last one;
  - when every attempt fails, an error message naming `max_retries` is returned.

  The model server is a parameter, `server(i)`, which gives the outcome of attempt `i`.
  The requests and pauses are returned as a list of events, so they can be counted.
- **The batch** (`generate_definitions`), in `batch.dfy`. It builds one record per word,
  in list order. Each record holds the generated definition. It also holds the first
  reference row's definition for the word, but only when that definition is present and
  not empty.

All text is ASCII, modelled as sequences of characters.

## Model

| member | source | states |
|---|---|---|
| Text.Strip | ollama_generation_code.py:108 | `str.strip()`: the result has no whitespace at either end; Text.StripCutsSpaces pins down that only the leading and trailing whitespace runs are removed. |
| Regex.MatchPrefix | ollama_generation_code.py:132 | The length of the match a backtracking engine finds for an anchored pattern at the start of the text, never longer than the text; Regex.LiteralThen, Regex.StarThenDisjoint and Regex.StarThenNullable characterise it for the shapes the cleaner uses. |
| Regex.Literal | ollama_generation_code.py:131 | `re.escape(word)` under IGNORECASE: one case-insensitive character atom per character of the word, as many atoms as characters; Regex.LiteralThen states what it matches. |
| Cleaner.StripWordColon | ollama_generation_code.py:131-132 | Step 1: deletes a leading word (any case), spaces, a colon and spaces, then strips; Cleaner.CleanWordColon and Cleaner.StepsOneToFourFix state when it acts and when it does not. |
| Cleaner.StripLeadingColon | ollama_generation_code.py:135 | Step 2: deletes a leading colon and the spaces after it, then strips; Cleaner.CleanLeadingColon states its effect and Cleaner.StepsOneToFourFix states that it leaves text without a leading colon alone. |
| Cleaner.StripRepeatedWord | ollama_generation_code.py:138-140 | Step 3: only when the lower-cased text starts with the lower-cased word, deletes the word, spaces, a sense number, a period and spaces, then strips; Cleaner.CleanWordNumber states its effect. |
| Cleaner.StripNumbering | ollama_generation_code.py:143 | Step 4: deletes a leading number, an optional period and spaces, then strips; Cleaner.CleanNumbering states its effect. |
| Cleaner.DropLeadIns | ollama_generation_code.py:146-149 | Step 5: each lead-in in list order, once, cut with the rest stripped when the lower-cased text starts with it; Cleaner.DropLeadInsAt and Cleaner.DropLeadInsNone characterise it. |
| Cleaner.Clean | ollama_generation_code.py:126-151 | `clean_definition`: the five steps composed in order; Cleaner.CleanTrimmedInfix and Cleaner.CleanInert state what every result satisfies. |
| Generator.Prompt | ollama_generation_code.py:85-91 | The guidelines, a blank line, `Kata: ` and the word, a newline, and `Definisi:`; Generator.PromptDeterminesWord shows the word can be read back from it. |
| Generator.Request | ollama_generation_code.py:89-104 | The one POST every attempt sends: the generate endpoint, model `llama3.2:3b`, no streaming, temperature 0.3, at most 200 tokens, top-p 0.9, a 60-second timeout; Generator.GenerateEvents shows every request is this one. |
| Generator.Sentinel | ollama_generation_code.py:124 | The error message naming `max_retries` in decimal; Generator.SentinelDefault gives its default text. |
| Generator.AttemptFrom | ollama_generation_code.py:87-122 | The retry loop from a given attempt on: the raw answer of the first success and the requests and pauses on the way; Generator.SkipsFailures and Generator.GivesUpFrom characterise it. |
| Generator.Generate | ollama_generation_code.py:87-124 | `generate_definition_ollama`: the stripped, cleaned first successful answer, or the error message; Generator.SucceedsAtFirstSuccess and Generator.GivesUpWithoutSuccess characterise it. |
| Batch.ReferenceFor | ollama_generation_code.py:186-201 | The reference field for a word: the first matching row's definition when it is not empty; Batch.ReferenceForIff characterises it. |
| Batch.MakeRecord | ollama_generation_code.py:185-201 | One word's record: the word, its generated definition with the default three attempts, and its reference field; Batch.RecordFields states its fields. |
| Batch.BatchEvents | ollama_generation_code.py:185-206 | The requests and pauses of the whole batch, each word's followed by the 0.5-second pause; Batch.BatchRequests bounds its requests. |
| Text.StripCutsSpaces | ollama_generation_code.py:108 | Stripping removes only whitespace, and only at the two ends: the result is the input between a run of leading and a run of trailing whitespace. |
| Regex.Substitute | ollama_generation_code.py:132 | An anchored substitution with an empty replacement only ever deletes a prefix: the result is a suffix of the text, and text the pattern does not match comes back unchanged. |
| Regex.LiteralThen | ollama_generation_code.py:131-132 | The escaped word, matched ignoring case, matches exactly when the text starts with the word up to case, and the rest of the pattern then continues right after it. |
| Text.NatToStringDecimal | ollama_generation_code.py:124 | The number in the error message is written in decimal: non-empty, digits only, no leading zero, and it reads back as the same number. |
| Cleaner.CleanTrimmedInfix | ollama_generation_code.py:126-151 | Cleaning always returns one contiguous piece of its input, with no leading or trailing whitespace. |
| Cleaner.CleanWordColon | ollama_generation_code.py:130-132 | The word in any case, optional spaces, a colon and optional spaces are removed from the front of text that needs no further cleaning, and nothing else is removed. |
| Cleaner.CleanWordNumber | ollama_generation_code.py:137-140 | The word repeated at the front with an optional sense number, optional period and spaces is removed, leaving exactly the rest. |
| Cleaner.CleanLeadingColon | ollama_generation_code.py:134-135 | A bare colon and the spaces after it are removed from the front of text that needs no further cleaning, leaving exactly that text, whenever the word does not itself start with a colon. |
| Cleaner.CleanNumbering | ollama_generation_code.py:142-143 | A leading number with an optional period and spaces is removed, leaving exactly the rest. |
| Cleaner.CleanLeadIn | ollama_generation_code.py:145-149 | A lead-in of any case at the front is cut, together with the spaces after it, when the trimmed text does not start with the word (otherwise step 3 removes the word first) and no later lead-in in the list follows. |
| Cleaner.DropLeadInsAt | ollama_generation_code.py:146-149 | The lead-ins are tried in list order, each at most once; after the one at the front is cut, only later ones can still apply. |
| Cleaner.StepsOneToFourFix | ollama_generation_code.py:130-143 | On trimmed text that starts with neither the word, a colon nor a digit, steps 1 to 4 change nothing. |
| Cleaner.CleanInert | ollama_generation_code.py:126-151 | Nothing else changes: trimmed text that starts with none of the word, a colon, a digit or a lead-in is returned unchanged. |
| CleanerExamples.ExampleWordColon | ollama_generation_code.py:131-132 | `komputer: alat untuk mengolah data` becomes `alat untuk mengolah data`. |
| CleanerExamples.ExampleOnlyHeadword | ollama_generation_code.py:131-132 | An answer that is only the headword and a colon cleans to the empty string. |
| CleanerExamples.ExampleWordNumber | ollama_generation_code.py:138-140 | For the word `kudus`, `Kudus 2. suci` becomes `suci`. |
| CleanerExamples.ExampleNumbering | ollama_generation_code.py:143 | `1. x` becomes `x`. |
| CleanerExamples.ExampleLeadIn | ollama_generation_code.py:146-149 | `Definisi: warna dasar` becomes `warna dasar`. |
| CleanerExamples.ExampleLeadInsInOrder | ollama_generation_code.py:146-149 | `definisi: arti: x` becomes `x`, because `arti:` is checked after `definisi:`. |
| CleanerExamples.ExampleLeadInsOnce | ollama_generation_code.py:146-149 | `arti: definisi: x` becomes `definisi: x`, because `definisi:` is checked before `arti:`. |
| CleanerExamples.ExampleDefinisi | ollama_generation_code.py:146-149 | `definisi: x` becomes `x`. |
| CleanerExamples.CleanNotIdempotent | ollama_generation_code.py:146-149 | Cleaning `arti: definisi: x` a second time changes it again, so cleaning is not idempotent. |
| Generator.SkipsFailures | ollama_generation_code.py:87-122 | Failed attempts before the first success only add a request and a pause each; the run ends with the answer of the first success. |
| Generator.SucceedsAtFirstSuccess | ollama_generation_code.py:87-112 | When attempt `k` is the first success, the result is the cleaned, stripped answer of attempt `k`, after exactly `k + 1` requests with a pause between each two. |
| Generator.SuccessIsCleanedPiece | ollama_generation_code.py:106-112 | A successful result is a piece of the raw answer, with no surrounding whitespace. |
| Generator.GivesUpWithoutSuccess | ollama_generation_code.py:87-124 | When every allowed attempt fails, the result is the error message naming `max_retries`, after `max_retries` requests; with no positive `max_retries`, no request is made. |
| Generator.GenerateEvents | ollama_generation_code.py:85-122 | For a positive `max_retries` there are between 1 and `max_retries` requests and one pause fewer; none otherwise; every request carries the same prompt, payload, URL and timeout. |
| Generator.GenerateSleeps | ollama_generation_code.py:116-122 | The number of pauses equals the number of failed attempts numbered below `max_retries - 1`. |
| Generator.PromptDeterminesWord | ollama_generation_code.py:85-91 | The prompt identifies its word: with the same guidelines, two prompts are equal only when their words are equal. |
| Generator.SentinelDefault | ollama_generation_code.py:124 | With the default three attempts, the error message is `Error: Failed to generate definition after 3 attempts`. |
| Batch.FirstMatch | ollama_generation_code.py:189-191 | Finds the position of the first row whose word equals the given word, or reports that no row does. |
| Batch.ReferenceForIff | ollama_generation_code.py:187-200 | A reference definition `d` is kept exactly when there is a table whose first row for the word defines it as `d`, and `d` is not empty. |
| Batch.BuildRecords | ollama_generation_code.py:185-203 | There is one record per word, in input order, and each record is the one that word alone yields. |
| Batch.GenerateDefinitions | ollama_generation_code.py:185-203 | The loop that appends one record per word produces the same sequence: same count, same order, same words. |
| Batch.RecordFields | ollama_generation_code.py:185-200 | Record `i` has word `i`, that word's generated definition, and a reference field exactly when the first matching row has a non-empty definition. |
| Batch.BatchRequests | ollama_generation_code.py:185-186 | The whole batch makes at least as many requests as there are words and at most three times as many. |
| Batch.ExampleReferences | ollama_generation_code.py:187-200 | With a repeated word, the first row wins; an empty definition, a missing word and a missing table all leave the field out. |

## Left out

- Network I/O: the connection check, the HTTP requests, status codes, JSON decoding,
  timeouts and exception classes. Each attempt is reduced to a successful reply text or
  a failure. A reply without a `response` field counts as a success with empty text.
- Time: pauses become events. The 2-second pause between retries and the 0.5-second
  pause after each word are recorded, not waited for.
- Loading the CSV files, writing the results, the progress bar and every printed
  diagnostic. None of these affects the records.
- The text of the style guidelines. It is a parameter of the prompt.
- Unicode: Python's case-insensitive matching, `lower()`, `\s`, `\d` and `strip()` are
  Unicode-aware. The model covers ASCII only: A-Z lower-case to a-z, whitespace is codes
  9-13 and 28-32, and the digits are 0-9.
- Pandas missing values in the reference table. Reference definitions are strings, and
  only the empty string counts as false in the check at line 200.
- The numeric options of the payload are kept as exact decimal values, not as floats.
- Cleaner.CleanWordNumber: requires that the word starts with neither whitespace nor a
  colon, and that the rest is inert (trimmed, and starting with neither the word, a
  colon, a digit nor a lead-in) and non-empty, with a first character that is not a
  digit, whitespace or `.`, so that it cannot extend the number, the period or the
  spaces. Inputs outside these conditions are covered only by Cleaner.CleanTrimmedInfix.
- Cleaner.CleanNumbering: requires that the word does not start with a digit, and that
  the rest is inert and non-empty, with a first character that is not a digit,
  whitespace or `.`. Inputs outside these conditions are covered only by
  Cleaner.CleanTrimmedInfix.
- Cleaner.CleanWordColon: requires that the rest is text no step applies to, so it does
  not state what happens when, say, the word is repeated twice.
- Cleaner.CleanLeadingColon: requires that the word does not start with a colon and
  that the rest is inert and non-empty. A word that starts with a colon would be cut by
  step 1 first. Other inputs are covered only by Cleaner.CleanTrimmedInfix.

## Notes

- Cleaning is not idempotent: the code checks the lead-ins only once and in a fixed
  order, so `arti: definisi: x` cleans to `definisi: x`, and cleaning that again gives
  `x` (CleanerExamples.CleanNotIdempotent).
- A reference row whose definition is present but empty is treated as having no
  reference, as the code's truthiness check does.
- A negative `max_retries` makes no attempt, and the error message then shows the
  negative number, as the code would.
