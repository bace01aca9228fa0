# QA-Tools-App JSON normalisation engine, in Dafny

This project models the record normalisation engine under `lib/` of QA-Tools-App. The engine takes
equipment catalogue records decoded by `json.load`. It fills in and coerces the `general` section,
validates the media lists, cleans the `features`/`options` lists, rewrites the specification sections
and strips nulls. Along the way it records every change in a `ModelReport`, and that report is rendered
as Markdown. Model names are resolved in batches through a language-model client. The client
round-robins over a pool of API keys held by an `APIKeyManager`. The model also covers
`FileLoader.categorize_files`, which sorts uploads into JSON files and archives.

Modules, file by file:

- `json.dfy` (`Json`): the values `json.load` produces. It holds the Python built-ins the engine
  applies to them: truthiness, `str()`, `repr()`, `in`, `[...]`, `len()`, `dict.get`. It also holds the
  exceptions they raise.
- `assoc.dfy` (`Assoc`): Python dictionaries as insertion-ordered association lists.
- `strings.dfy`, `seqs.dfy`, `py_numbers.dfy`: `str` methods, list comprehensions, `int()` and `float()`.
- `config.dfy` (`Config`): the constants of `lib/config.py`.
- `api_manager.dfy` (`ApiManager`): the key rotation.
  - Pure functions say what each operation does to the counters (`Cursor`).
  - The class `APIKeyManager` updates its fields exactly as they say.
  - Lemmas cover runs of operations.
- `gemini_client.dfy` (`GeminiClient`): `capitalize_model_names_batch`.
  - `Batch` is the specification function.
  - The method `GeminiAPIClient.CapitalizeModelNamesBatch` holds the `for retry` loop, proved against it.
- `text_rules.dfy` (`TextRules`): `TextFormatter`, `URLValidator` and `ListCleaner`.
- `general_validator.dfy` (`GeneralValidator`): `GeneralSectionValidator`.
- `media_validator.dfy` (`MediaValidator`): `MediaValidator`.
- `json_formatter.dfy` (`JsonFormatter`): `ModelReport` and `JSONModelFormatter`.
  - Both are classes whose methods update the report, the name cache and the key manager in place.
  - Each method is proved against a specification function.
  - The per-record pipeline is a chain of `Stage` functions. A raised exception is carried as a value
    (`Raised`) until `_format_single_model` catches it.
- `report_generator.dfy` (`ReportGenerator`): `generate_text_report` and `get_summary_stats`.
- `file_loader.dfy` (`FileLoader`): `categorize_files`.

Some behaviour of the code as written is proved rather than smoothed over:

- A reply of the wrong length does not rotate the key. The next iteration then finds that key already
  tried and only rotates. A mismatch therefore uses up two of the `len(api_keys)` iterations, and with
  two keys the second key is never asked (`GeminiClient.MismatchSkipsRemainingKey`).
- `normalize_units` is not idempotent: it turns "m.." into "m.", and a second pass turns that into "m" (`TextRules.NormalizeUnitsNotIdempotent`).
- Neither is `_remove_null_fields`: a list that empties during the pass is left as `None`
  (`JsonFormatter.CleanDictLeavesNull`).
- `_clean_lists` reports a negative count for a non-empty string field (`JsonFormatter.CleanListOfNonList`).
  A truthy number there makes `len()` raise, and the record fails (`JsonFormatter.CleanListOfScalarRaises`).
- `_extract_model_names` raises on a record whose `general` is `None` or a number. That makes
  `prebatch_model_names` stop before any batch (`JsonFormatter.NameOfFacts`,
  `JsonFormatter.JSONModelFormatter.PrebatchModelNames`).

## Model

| member | source | states |
|---|---|---|
| ApiManager.APIKeyManager.Create | lib/api_manager.py:8-23 | An empty key list is refused with "At least one API key must be provided". Otherwise the manager holds the given pool and quota, starts on the first key with both counters at 0, and satisfies the rotation invariant. |
| ApiManager.APIKeyManager.CreateWithDefaultQuota | lib/api_manager.py:8 | Omitting the quota gives a quota of 15 calls per key; otherwise as `Create`. |
| ApiManager.APIKeyManager.constructor | lib/api_manager.py:19-23 | A manager built from a non-empty pool starts on key 0 with `call_count` and `total_calls` at 0, and keeps the invariant. |
| ApiManager.APIKeyManager.CurrentKey | lib/api_manager.py:34-36 | The current key is always one of the pool's keys, namely the one at the current index. |
| ApiManager.APIKeyManager.CurrentKeyNumber | lib/api_manager.py:38-40 | The key number lies between 1 and the pool size, and the key at that 1-based position is the current key. |
| ApiManager.APIKeyManager.IncrementCallCount | lib/api_manager.py:42-48 | The counters move as `Incremented` says: the call is counted, and the key rotates once the quota is reached. `total_calls` rises by exactly 1, and the invariant is kept. |
| ApiManager.APIKeyManager.Rotate | lib/api_manager.py:50-55 | The index advances by one modulo the pool size and `call_count` becomes 0. `total_calls` is unchanged. |
| ApiManager.APIKeyManager.RotateOnFailure | lib/api_manager.py:57-59 | Rotates whatever the counters say, keeps the invariant and leaves `total_calls` unchanged. |
| ApiManager.APIKeyManager.GetStatus | lib/api_manager.py:61-69 | Reports the state through `StatusOf` without changing it. The reported key number is `get_current_key_number` and the total is the pool size. |
| ApiManager.Rotated | lib/api_manager.py:50-55 | `_rotate` on the counters: the index moves to the next key, wrapping past the last, and `call_count` becomes 0. |
| ApiManager.Incremented | lib/api_manager.py:42-48 | `increment_call_count` on the counters: both counters rise by one, then `_rotate` runs when `call_count` has reached the quota. |
| ApiManager.StatusOf | lib/api_manager.py:61-69 | The status holds a key number within 1..pool size, the pool size, the two counters as stored and the quota. With a quota of at least 1, the calls on the current key are below the quota. |
| ApiManager.StepKeepsCursorOk | lib/api_manager.py:42-59 | Both `increment_call_count` and `rotate_on_failure` keep the index inside the pool and `call_count` below the quota. `total_calls` rises by 1 on an increment and stays put on a failure. |
| ApiManager.ReplayKeepsCursorOk | lib/api_manager.py:42-59 | Any run of operations from a valid state ends in a valid state. |
| ApiManager.ReplayCountsIncrements | lib/api_manager.py:45 | After any run, `total_calls` is its start plus the number of `increment_call_count` calls, so it never decreases. |
| ApiManager.FailuresAdvance | lib/api_manager.py:50-59 | `k` failures move the index `k` places around the pool, leave `call_count` at 0 and leave `total_calls` alone. |
| ApiManager.FullCycleReturns | lib/api_manager.py:50-59 | One failure per key brings the manager back to the key it started on. |
| ApiManager.IncrementsBelowQuota | lib/api_manager.py:42-48 | Below the quota, `k` counted calls stay on the same key and raise both counters by `k`. |
| ApiManager.QuotaRotates | lib/api_manager.py:42-48 | A fresh key serves exactly `max_calls_per_key` counted calls, then the next key takes over with `call_count` 0. |
| ApiManager.ReplaySplit | lib/api_manager.py:42-59 | Running two runs of operations one after the other is running their concatenation. |
| GeminiClient.NumberedLines | lib/gemini_client.py:115 | Line `i` of the prompt's list is `"{from + i}. {names[i]}"`, one line per name, in input order. |
| GeminiClient.Prompt | lib/gemini_client.py:114-116 | The prompt: the instructions followed by the numbered lines joined with line breaks. |
| GeminiClient.PairKeys | lib/gemini_client.py:139 | The success mapping's keys are exactly the input names, each once. |
| GeminiClient.PairLooksUpByPosition | lib/gemini_client.py:139 | With distinct names, the mapping sends the i-th name to the i-th reply. |
| GeminiClient.PairEarlierName | lib/gemini_client.py:139 | With distinct names, a name before the last keeps the reply at its own position. |
| GeminiClient.PairLast | lib/gemini_client.py:139 | The last name is assigned last, so it holds the last reply even when it repeats an earlier name. |
| GeminiClient.Identity | lib/gemini_client.py:155 | The fallback mapping has exactly the input names as keys, each once, and maps each name to itself. |
| GeminiClient.IdentityIsPairWithItself | lib/gemini_client.py:153-155 | The fallback mapping agrees with the success mapping built from a reply that repeats the names. |
| GeminiClient.Attempts | lib/gemini_client.py:119-151 | The `for retry` loop from a given cursor, tried-key set and call list, with a number of iterations left: skip and rotate, call and rotate on an exception, stop on an accepted reply, or go on without rotating. |
| GeminiClient.Batch | lib/gemini_client.py:101-155 | `capitalize_model_names_batch`: `{}` for no names, otherwise `len(api_keys)` attempts on the numbered prompt, and the identity mapping when none is accepted. |
| GeminiClient.AttemptsFacts | lib/gemini_client.py:119-151 | From any state, the rest of the retry loop sends distinct pool keys, at most one per remaining iteration, and keeps the manager valid. `total_calls` rises by one exactly on success. A success pairs the names with the last reply. A failure means no call made got an acceptable reply. |
| GeminiClient.SkipFacts | lib/gemini_client.py:126-129 | A key already tried is passed over: the rest of the loop is the loop from the rotated cursor with one iteration fewer, the same tried keys and no new call. The loop's guarantees still hold. |
| GeminiClient.RaisedFacts | lib/gemini_client.py:131-151 | A call that raised records the key as tried and as sent, rotates the cursor, and the loop goes on with one iteration fewer, its guarantees intact. |
| GeminiClient.AcceptedFacts | lib/gemini_client.py:137-146 | A non-empty reply as long as the input counts the call once and ends the loop with the paired mapping. |
| GeminiClient.RejectedFacts | lib/gemini_client.py:131-137 | A reply that is empty or of the wrong length records the key as tried and as sent, leaves the cursor where it was, and the loop goes on with one iteration fewer. |
| GeminiClient.BatchFacts | lib/gemini_client.py:101-155 | The batch result's keys are exactly the input names. The keys sent are distinct pool keys, at most one per key in the pool. `total_calls` rises by one exactly when a reply is accepted, and that reply supplies the mapping. Otherwise no key sent got an acceptable reply, and every name maps to itself. |
| GeminiClient.AcceptedRunOk | lib/gemini_client.py:137-146 | A loop that ended on an accepted reply gives a batch result meeting the batch guarantees. |
| GeminiClient.FallbackRunOk | lib/gemini_client.py:153-155 | A loop in which no reply was accepted gives the identity mapping and meets the batch guarantees. |
| GeminiClient.EmptyBatch | lib/gemini_client.py:111-112 | An empty name list returns `{}`, makes no call and leaves the manager as it was. |
| GeminiClient.MismatchUsesTwoIterations | lib/gemini_client.py:126-137 | A reply of the wrong length does not rotate. The next iteration finds the same key tried and only rotates, so the mismatch uses two iterations. |
| GeminiClient.MismatchSkipsRemainingKey | lib/gemini_client.py:119-155 | Take two keys where the first answers with an empty list. Only the first key is called, the batch falls back to the identity mapping, and the manager ends on the second key with `total_calls` unchanged. |
| GeminiClient.GeminiAPIClient.constructor | lib/gemini_client.py:18-28 | The client holds the given key manager, the prompt instructions and the remote call. |
| GeminiClient.GeminiAPIClient.CapitalizeModelNamesBatch | lib/gemini_client.py:101-155 | The loop returns the mapping of `Batch` and leaves the manager in `Batch`'s final state, so every property of `BatchFacts` holds of it. |
| TextRules.CapitalizeWordsIsCapAfterSpace | lib/validators.py:13-26 | On a non-empty string, `capitalize_words` equals the character-level rule: uppercase a lowercase letter exactly when it starts the stripped text or follows a space. |
| TextRules.CapitalizeWords | lib/validators.py:13-26 | `capitalize_words` on a string: the empty string as is; otherwise strip, split on single spaces, uppercase a lowercase first character of each token, and join with single spaces. |
| TextRules.CapAfterSpaceAt | lib/validators.py:21-24 | Only word-initial characters change, and only from lowercase to uppercase. All other characters and the length are kept. |
| TextRules.CapitalizeWordsTokens | lib/validators.py:18-26 | The result's space-separated tokens are the stripped input's tokens, each with its first letter capitalised, so the token count is kept. |
| TextRules.CapitalizeWordsIdempotent | lib/validators.py:13-26 | Capitalising twice is capitalising once. |
| TextRules.CapitalizeTwoWords | lib/validators.py:18-26 | Two words separated by one space are each capitalised on their own. |
| TextRules.CapitalizeWordsExample | lib/validators.py:13-26 | "hydraulic DOCK" becomes "Hydraulic DOCK". |
| TextRules.UnitTableShape | lib/config.py:79-88 | Every pattern of the unit table is non-empty and contains a '.', and its replacement has one '.' fewer and is no longer. |
| TextRules.NormalizeUnitsValue | lib/validators.py:29-37 | A value that is not a string comes back unchanged; a string is unit-normalised. |
| TextRules.NormalizeUnits | lib/validators.py:29-37 | `normalize_units` on a string: each pair of the unit table, in table order, replaces every occurrence of its pattern in the running text. |
| TextRules.NormalizeUnitsShrinks | lib/validators.py:29-37 | Normalising never lengthens the text and never adds a '.'; a text without '.' is unchanged. |
| TextRules.ApplyReplacementsAppend | lib/validators.py:34-35 | Applying the first part of the table and then the rest is the same as applying the whole table. |
| TextRules.ApplyReplacementsUnmatched | lib/validators.py:34-35 | A table whose every pattern is longer than the text, or as long and different, leaves the text unchanged. |
| TextRules.MetreEntry | lib/config.py:79-88 | In the unit table, entry 8 is the "m." rule; the eight patterns before it have three characters and none is "m..", and every pattern after it has at least three. |
| TextRules.MetreRule | lib/validators.py:34-35 | In a table of that shape, only the "m." rule matches "m.." or "m.", so "m.." becomes "m." and "m." becomes "m". |
| TextRules.NormalizeMetre | lib/validators.py:29-37 | `normalize_units("m..")` is "m." and `normalize_units("m.")` is "m". |
| TextRules.NormalizeUnitsNotIdempotent | lib/validators.py:29-37 | `normalize_units("m..")` is "m.", and normalising that again gives "m": normalising twice differs from normalising once. |
| TextRules.CamelCaseAlnum | lib/validators.py:40-54 | The output of `camel_case` on a non-empty string holds only ASCII letters and digits, so it has no spaces. |
| TextRules.CamelCase | lib/validators.py:40-54 | `camel_case`: title-case the space-separated parts, lower-case the first, join them, then drop the listed punctuation and every other non-alphanumeric character. |
| TextRules.CamelCaseKeepsAlnum | lib/validators.py:45-54 | Up to letter case, `camel_case` keeps exactly the input's letters and digits, in order. |
| TextRules.UrlAccepted | lib/validators.py:61-70 | A scheme, "://", a non-empty host without brackets or spaces, and a path, query or fragment make a valid URL. |
| TextRules.IsValidUrl | lib/validators.py:61-70 | `is_valid_url`: an empty or non-string value is rejected; a string is valid when it has a scheme and a non-empty network location. |
| TextRules.RelativePathRejected | lib/validators.py:61-70 | A site-relative path such as "/img/a.png" has no scheme and is rejected. |
| TextRules.CleanEmptyElements | lib/validators.py:77-83 | A non-list comes back unchanged. A list keeps, in order, exactly its truthy elements whose `str()` is not blank, and becomes `None` exactly when none is left. |
| TextRules.CleanEmptyElementsIdempotent | lib/validators.py:77-83 | Cleaning twice is cleaning once, and a non-empty list without blanks is returned as it is. |
| GeneralValidator.EnsureRequiredFields | lib/validators.py:107-110 | The loop over the required fields computes `InjectFields`. |
| GeneralValidator.InjectFields | lib/validators.py:107-110 | The required-field loop: a missing field is set to `None` (0 for `msrp`) with one "Missing required field" issue, in field order. |
| GeneralValidator.InjectFieldsValues | lib/validators.py:107-110 | Afterwards every required field is present. A field that was present keeps its value, and a missing one holds `None` (or 0 for `msrp`). Every other field is unchanged. |
| GeneralValidator.InjectFieldsIssues | lib/validators.py:108-109 | Exactly one issue is recorded per missing required field. |
| GeneralValidator.InjectFieldsDistinct | lib/validators.py:110 | Injecting fields into a section with no key twice leaves no key twice. |
| GeneralValidator.CapitalizeField | lib/validators.py:138-142 | A truthy field becomes `capitalize_words(str(value))`, and a falsy one is left alone. No other key changes. One issue is recorded exactly when the value changed. |
| GeneralValidator.CapitalizeFields | lib/validators.py:137-142 | The loop keeps the key order, leaves fields outside the list alone, and records at most one issue per field. The value each listed field ends up with is given by `CapitalizeFieldsAt`. |
| GeneralValidator.FormatModelField | lib/validators.py:145-149 | A truthy `model` becomes the cached name of its `str()`, or that text when uncached. One issue is recorded exactly when it changed, and nothing else changes. |
| GeneralValidator.TextFieldsFacts | lib/validators.py:126-151 | Formatting only rewrites the four text fields. It keeps the key order and records at most four issues. |
| GeneralValidator.CapitalizeFieldsAt | lib/validators.py:137-142 | With no field listed twice, each listed field that was truthy becomes `capitalize_words(str(v))`, and a falsy one keeps its value. |
| GeneralValidator.CapitalizedFieldsFormatted | lib/validators.py:137-142 | After the text pass, each of manufacturer, category and subcategory that was truthy is `capitalize_words(str(v))`, and a falsy one keeps its value. |
| GeneralValidator.CapitalizeLoop | lib/validators.py:137-142 | The `for field in [...]` loop computes `CapitalizeFields`. |
| GeneralValidator.FormatTextFields | lib/validators.py:126-151 | `_format_text_fields` computes `TextFields`. |
| GeneralValidator.ValidateYear | lib/validators.py:153-167 | A falsy or `int` year is left alone with no issue. Any other year becomes `int(year)` with the "Converted year" issue when `int()` succeeds, and `None` with the "Invalid year" issue when it raises. No other key changes. |
| GeneralValidator.YearTextConverted | lib/validators.py:159-162 | A year written as the text of an integer becomes that integer. |
| GeneralValidator.FloatYearTruncated | lib/validators.py:161 | `int()` truncates a fractional year: 2020.9 becomes 2020. |
| GeneralValidator.YearWithPointInvalid | lib/validators.py:159-165 | A year text holding a point, such as "2020.0", makes `int()` raise, so the year becomes `None` with the "Invalid year" issue. |
| GeneralValidator.ValidateMsrp | lib/validators.py:169-192 | A missing MSRP is left alone. `None` becomes 0 with no issue. Text loses its commas and surrounding whitespace: nothing left gives 0 with no issue, a decimal gives its value (an `int` when whole) with the "Formatted MSRP" issue, and anything else gives 0 with the "Invalid MSRP" issue. Any other value, a negative number included, is left alone with no issue. No other key changes. |
| GeneralValidator.MsrpTextConverted | lib/validators.py:177-182 | The text of an integer becomes that integer, with one issue. |
| GeneralValidator.MsrpSeparatorAndCents | lib/validators.py:177-182 | Text of the form "a,b.c" in digits is read as the digits of `a`, `b` and `c` over `10^|c|`, an `int` when whole and a decimal otherwise, with the "Formatted MSRP" issue. |
| GeneralValidator.MsrpWithCents | lib/validators.py:177-182 | "12,500.50" becomes the decimal 12500.50. |
| GeneralValidator.MsrpWithZeroCents | lib/validators.py:177-182 | "12,500.00" becomes the `int` 12500. |
| GeneralValidator.DefaultCountriesGood | lib/config.py:77 | The default country list is a non-empty list of valid codes. |
| GeneralValidator.SetToDefault | lib/validators.py:204-215 | Resetting `countries` leaves a good list and exactly one issue, and changes no other key. |
| GeneralValidator.ValidateCountries | lib/validators.py:194-217 | Afterwards `countries` is a non-empty list of valid codes. At most one issue is recorded, and no other key changes. |
| GeneralValidator.CountriesUntouchedIff | lib/validators.py:198-209 | No issue is recorded exactly when `countries` is already a non-empty list of valid codes, and then nothing changes. |
| GeneralValidator.CountriesRemovedReported | lib/validators.py:206-209 | When only some entries are invalid, the one issue lists exactly those entries, in order. |
| GeneralValidator.CoerceFacts | lib/validators.py:112-123 | On a section holding `msrp` (as the required-field loop ensures), every field is still there after the coercions. The year is an `int` or falsy, the MSRP is neither text nor `None`, and the countries are good. A section with no key twice still has none twice. |
| GeneralValidator.CoerceKeepsKeys | lib/validators.py:112-123 | The coercions keep every key, and a section with no key twice still has none twice. |
| GeneralValidator.CoerceYear | lib/validators.py:153-167 | After the coercions the year is an `int` or falsy. |
| GeneralValidator.CoerceMsrp | lib/validators.py:169-192 | After the coercions a present MSRP is neither text nor `None`. |
| GeneralValidator.ValidatedGeneralFacts | lib/validators.py:92-124 | A falsy or non-dict section comes back unchanged with exactly one issue. A dict comes back with every required field and every field it had. Its year is an `int` or falsy, its MSRP is neither text nor `None`, its countries are a non-empty list of valid codes, and a section with no key twice still has none twice. |
| GeneralValidator.ValidatedGeneral | lib/validators.py:92-124 | `validate_and_format`: a falsy or non-dict section with its one issue, otherwise the required fields, the text fields, year, MSRP and countries in that order, with their issues concatenated. |
| GeneralValidator.ValidateAndFormat | lib/validators.py:92-124 | `validate_and_format`, step by step, computes `ValidatedGeneral`. |
| MediaValidator.WithEmpty | lib/validators.py:240-243 | `if k not in d: d[k] = ""` makes `k` present, keeps an existing value and changes no other key. |
| MediaValidator.Rename | lib/validators.py:273-277 | `d[to] = d.pop(from)` moves the value to `to`, removes `from` and changes no other key. |
| MediaValidator.RenameIfPresent | lib/validators.py:274-277 | `if from in d: d[to] = d.pop(from)`: `from` is gone afterwards. `to` holds the moved value when `from` was there and is untouched otherwise, and no other key changes. |
| MediaValidator.MoveVideoLocation | lib/validators.py:272-273 | A video read from `videoLocation` has that URL under `src`. |
| MediaValidator.MoveVideoTexts | lib/validators.py:274-277 | `videoDescription` and `videoName` are gone, and `src` is untouched. |
| MediaValidator.WithTexts | lib/validators.py:278-281 | `desc` and `longDesc` are present and every other key is unchanged. |
| MediaValidator.ShapeVideo | lib/validators.py:269-282 | A kept video has `src` (its URL), `desc` and `longDesc`, and neither old description key. |
| MediaValidator.ShapeAttachment | lib/validators.py:309-319 | A kept attachment has `attachmentLocation` (its URL) and an `attachmentName`. Its description is kept when truthy and is `"pdf {n}"` otherwise. |
| MediaValidator.UrlEntryFacts | lib/validators.py:247-249 | A bare URL string becomes a dictionary whose `src` is that URL, with `desc` and `longDesc` and no old description keys. |
| MediaValidator.ImageShape | lib/validators.py:237-249 | A kept image has a valid `src`, a `desc` and a `longDesc`. |
| MediaValidator.VideoShape | lib/validators.py:267-287 | A kept video has a valid `src`, a `desc` and a `longDesc`, and no `videoDescription` or `videoName`. |
| MediaValidator.AttachmentShape | lib/validators.py:307-329 | A kept attachment has a valid `attachmentLocation`, a truthy description and a name. |
| MediaValidator.Judge | lib/validators.py:237-331 | An entry is kept exactly when it is accepted. It is reported exactly when it is not accepted and is a string or a dict (for images, a dict holding `src`); anything else is skipped silently. |
| MediaValidator.AcceptedItems | lib/validators.py:236-253 | The kept entries are accepted ones, never more than the input. |
| MediaValidator.SweepKept | lib/validators.py:236-253 | The kept list is the accepted entries in their original order, reshaped with consecutive counters. |
| MediaValidator.Sweep | lib/validators.py:236-331 | The `enumerate` loop of one media validator: each entry is reshaped and kept, dropped with an issue naming its index, or skipped, and the attachment counter counts the kept entries. |
| MediaValidator.ShapeAllAt | lib/validators.py:305-319 | The `k`-th kept entry is the `k`-th accepted one, reshaped with the counter `n + k`. |
| MediaValidator.SweepIssues | lib/validators.py:236-253 | One issue is recorded per reported entry. |
| MediaValidator.AttachmentNumbering | lib/validators.py:305-319 | A kept attachment at output position `k` that had no truthy description is described as `pdf {k + 1}`. |
| MediaValidator.ValidateMedia | lib/validators.py:226-334 | The validator raises exactly when `Json.Lookup` does: on a record that is not a dict, where `field in model` raises (a number, `None`, a boolean) or answers True and the read `model[field]` then raises (a list or a string containing the field name). |
| MediaValidator.ValidateMediaFacts | lib/validators.py:226-334 | A non-empty list field is replaced by the accepted entries reshaped in order, or by `None` when none is accepted. One issue is recorded per reported entry, and every other field is unchanged. |
| MediaValidator.ValidateMediaSkips | lib/validators.py:226-234 | A record the lookup does not raise on, but that lacks the field or holds a falsy or non-list value there, is returned as it is with no issue. |
| MediaValidator.SweepLoop | lib/validators.py:237-252 | The `enumerate` loop computes `Sweep`: kept entries and issues, both in order. |
| MediaValidator.Validate | lib/validators.py:226-334 | The three validators compute `ValidateMedia`. |
| Json.PyIn | lib/json_formatter.py:126 | `key in x` raises exactly on a value that is not a dict, list or string. |
| Json.PyGetItem | lib/json_formatter.py:127 | `x[key]` succeeds exactly on a dict holding the key, and yields its value. |
| Json.Lookup | lib/json_formatter.py:170 | The guard `key in model` followed by the read gives the dict's entry or `None`. It raises exactly when `model` is not a dict and `in` does not answer False. |
| Json.PyLen | lib/json_formatter.py:233 | `len()` succeeds exactly on strings, lists and dicts. |
| Json.StrOfNonString | lib/validators.py:82 | `str()` of anything but a string is non-empty and starts with a visible character, so it never strips to "". |
| PyNumbers.ParseIntOfIntToString | lib/validators.py:161 | `int()` reads back `str(i)`. |
| PyNumbers.PyInt | lib/validators.py:161 | `int()` of a string succeeds exactly when it parses. A non-negative decimal is truncated. Lists, dicts and `None` raise. |
| PyNumbers.ParseDecimalOfIntToString | lib/validators.py:180 | `float()` reads an integer string as that integer with no fraction digits. |
| PyNumbers.WholeOrDecimal | lib/validators.py:181 | A whole value becomes an `int` equal to it, and any other value stays a decimal. |
| JsonFormatter.WithIssue | lib/json_formatter.py:22-26 | `add_issue` raises exactly on an unhashable name. Otherwise it appends the issue to that name's list, creating the list at the end if absent, and leaves every other name's list alone. |
| JsonFormatter.AddIssues | lib/json_formatter.py:177-178 | `add_issue` for each issue in turn under one name: raises on an unhashable name, otherwise appends the issues in order. |
| JsonFormatter.AddIssuesFacts | lib/json_formatter.py:177-178 | A run of `add_issue` calls under one name either raises on the first (unhashable name, nothing added) or appends all issues in order. |
| JsonFormatter.AddIssuesExtends | lib/json_formatter.py:22-26 | Adding issues only appends: every name's list after starts with its list before. |
| JsonFormatter.ExtendsTransitive | lib/json_formatter.py:22-26 | Only-appending is transitive, so any run of `add_issue` calls only appends. |
| JsonFormatter.ModelReport.constructor | lib/json_formatter.py:15-20 | A fresh report has every counter at 0, no issue and no error. |
| JsonFormatter.ModelReport.AddIssue | lib/json_formatter.py:22-26 | On an unhashable name it raises and changes nothing. Otherwise only the issue map changes, as `WithIssue` says. |
| JsonFormatter.ModelReport.AddError | lib/json_formatter.py:28-30 | The error is appended to `errors` and nothing else changes. |
| JsonFormatter.ModelReport.ToDict | lib/json_formatter.py:32-40 | Returns the three counters, the issue map and the error list as they stand. |
| JsonFormatter.GetModelNameFacts | lib/json_formatter.py:216-223 | `_get_model_name` never raises. It yields `general.model` exactly when the record is a dict whose `general` is a dict holding `model`, and "Unknown Model" otherwise. |
| JsonFormatter.GetModelName | lib/json_formatter.py:216-223 | `_get_model_name`: `general.model` when the guard and the read succeed, "Unknown Model" otherwise. |
| JsonFormatter.NameOfFacts | lib/json_formatter.py:124-134 | A record yields a name exactly when its `general` is a dict whose `model` is a non-empty string, and that name is `_get_model_name`'s. It raises exactly when `general` is present but neither a dict nor a container without "model". |
| JsonFormatter.NameOf | lib/json_formatter.py:124-129 | The name taken from one record: its `general.model` when that is a non-empty string, with the raising cases of `in` and `[...]` on `general`. |
| JsonFormatter.ExtractModelNames | lib/json_formatter.py:120-136 | `_extract_model_names`: a list is read record by record, in order; anything else as one record. |
| JsonFormatter.NamesOfFacts | lib/json_formatter.py:120-129 | Extraction over a list fails exactly when some record raises. Otherwise the names are, one for one and in order, the `general.model` strings of the records whose `general.model` is a non-empty string. |
| JsonFormatter.UniqueFacts | lib/json_formatter.py:82-88 | The unique list has no duplicates, holds exactly the input's names, and lists them in the order of first appearance. |
| JsonFormatter.Unique | lib/json_formatter.py:82-88 | The names with every repeat of an earlier name removed. |
| JsonFormatter.Dedup | lib/json_formatter.py:83-88 | The `seen`-set loop computes `Unique`. |
| JsonFormatter.ChunksFacts | lib/json_formatter.py:91-102 | The chunks are non-empty and none is longer than the batch size. They concatenate back to the input, and there are `ceil(n / size)` of them. |
| JsonFormatter.Chunks | lib/json_formatter.py:101-102 | The slices `s[i:i + size]` for `i` stepping by `size` from 0. |
| JsonFormatter.ChunksHead | lib/json_formatter.py:101-102 | The first chunk is the first `size` names, or all of them. |
| JsonFormatter.UpdateFacts | lib/json_formatter.py:111 | After `update`, the cache holds its old keys and the mapping's keys. A key of the mapping takes the mapping's value, and any other key keeps its value. |
| JsonFormatter.Update | lib/json_formatter.py:111 | `dict.update`: each pair of the mapping assigned into the cache in turn. |
| JsonFormatter.RunBatches | lib/json_formatter.py:101-111 | Sending the chunks in order leaves the key manager valid. |
| JsonFormatter.RunBatchesCovers | lib/json_formatter.py:101-111 | After the batches every name sent is a cache key and every old key is still there. A key no batch sent keeps its old value. |
| JsonFormatter.NoNamesNoCall | lib/json_formatter.py:79-80 | With no names there is no chunk and no call: the cache and the key manager are unchanged. |
| JsonFormatter.AllNamesPrefixFails | lib/json_formatter.py:75-77 | Collecting names stops at the first file that raises. |
| JsonFormatter.PrebatchCovers | lib/json_formatter.py:73-111 | After pre-batching every collected name is a cache key, and every key the cache held is still there. |
| JsonFormatter.JSONModelFormatter.constructor | lib/json_formatter.py:46-62 | A formatter starts with a fresh empty report, an empty name cache and the standard validators. |
| JsonFormatter.JSONModelFormatter.PrebatchModelNames | lib/json_formatter.py:64-118 | A file that raises ends the call, with the cache and the manager unchanged. Otherwise the unique names go to the client in `BATCH_SIZE` chunks, in order, and each answer is merged into the cache as `RunBatches` says. |
| JsonFormatter.JSONModelFormatter.RecordIssues | lib/json_formatter.py:177-178 | `for issue in issues: add_issue(...)`: either raises with the report unchanged or appends all the issues under the name. |
| JsonFormatter.CleanListFound | lib/json_formatter.py:230 | A missing list field leaves the record as it is, and a present one is cleaned. |
| JsonFormatter.CleanedListsStep | lib/json_formatter.py:229-236 | A field that raises ends `_clean_lists`. Otherwise its issues come before those of later fields. |
| JsonFormatter.CleanPresentOfList | lib/json_formatter.py:230-236 | A non-empty list field is replaced by its blank-free elements, or by `None`. The number removed is never negative, and one issue "Removed {k} empty ..." carrying it is recorded exactly when it is not 0. |
| JsonFormatter.CleanListOfNonList | lib/json_formatter.py:231-236 | A non-empty string or dict field is kept, yet counts as 0 before and its length after, so it is reported as a negative removal. |
| JsonFormatter.CleanListOfScalarRaises | lib/json_formatter.py:233 | A truthy number or boolean field makes `len()` raise `TypeError`. |
| JsonFormatter.JSONModelFormatter.CleanLists | lib/json_formatter.py:225-238 | The loop over `features` and `options` computes `CleanedLists`. |
| JsonFormatter.FormatEntry | lib/json_formatter.py:253-264 | An entry proper is stored under `camel_case(key)`, and anything else under its own key, unchanged and without an issue. An entry proper with a falsy `desc` is kept as it is, without an issue. |
| JsonFormatter.FormatEntryNormalizes | lib/json_formatter.py:252-261 | An entry proper with a truthy `desc` is re-keyed by `camel_case`, and its `desc` is replaced, in place, by the unit-normalised text of its `str()`. The keys keep their order. |
| JsonFormatter.FormatEntryReportsChange | lib/json_formatter.py:253-258 | For an entry proper with a truthy `desc`, exactly one "Normalized units" issue is raised when normalising changes `desc`, and none otherwise. |
| JsonFormatter.FormatEntryKeepsField | lib/json_formatter.py:252-255 | Every field of an entry proper other than `desc` keeps its value. |
| JsonFormatter.FormatEntryDesc | lib/json_formatter.py:254-259 | A `desc` string without '.' is unchanged and raises no issue. A truthy `desc` that is not a string is always reported. |
| JsonFormatter.RebuildKeys | lib/json_formatter.py:251-264 | The rebuilt dict's keys are exactly the entries' new keys. |
| JsonFormatter.RebuildEmpty | lib/json_formatter.py:266 | The rebuilt dict is empty exactly when the section had no entry. |
| JsonFormatter.RebuildLastWins | lib/json_formatter.py:262-264 | When keys collide the later entry wins: each key holds the value of the last entry mapped to it. |
| JsonFormatter.FormatSectionFacts | lib/json_formatter.py:251-266 | A rebuilt section is empty only when the section was. Its keys are the camel-cased keys of entries proper and the unchanged keys of the others. A shared key holds the formatted value of the last entry mapped to it. |
| JsonFormatter.SectionStepFacts | lib/json_formatter.py:244-266 | Only a truthy dict section is touched. It is replaced by its rebuilt dict, which is never `None`, and every other key of the record is left alone. |
| JsonFormatter.FormattedSectionsStep | lib/json_formatter.py:244-268 | A section lookup that raises ends the loop. Otherwise its issues come before those of later sections. |
| JsonFormatter.FormattedSectionsOfDict | lib/json_formatter.py:240-268 | A dict record never makes `_format_specifications` raise, and stays a dict. |
| JsonFormatter.JSONModelFormatter.RebuildSection | lib/json_formatter.py:251-264 | The inner loop computes `FormatSection`. |
| JsonFormatter.JSONModelFormatter.FormatSpecifications | lib/json_formatter.py:240-268 | The loop over `SPEC_SECTIONS` computes `FormattedSections`. |
| JsonFormatter.CleanFieldsIsComprehension | lib/json_formatter.py:274-282 | The dict branch of `clean_dict` keeps exactly the kept entries, in order, each value cleaned. |
| JsonFormatter.CleanItemsIsComprehension | lib/json_formatter.py:284 | The list branch keeps exactly the kept elements, in order, each cleaned. |
| JsonFormatter.CleanDict | lib/json_formatter.py:272-289 | `clean_dict`: a dict keeps its kept entries, each value cleaned; a list keeps its kept elements, each cleaned, and becomes `None` when none is left; anything else is returned as it is. |
| JsonFormatter.CleanDictStripped | lib/json_formatter.py:270-289 | Whatever `clean_dict` returns has no empty list anywhere. It has no empty string in a list, and in a dict an empty string only under `desc`, `longDesc` or `attachmentName`. |
| JsonFormatter.CleanDictNotEmptyString | lib/json_formatter.py:270-289 | Cleaning never makes an empty string out of anything else. |
| JsonFormatter.CleanDictFixes | lib/json_formatter.py:270-289 | A value already stripped, with no `None` anywhere, is returned unchanged. |
| JsonFormatter.CleanDictLeavesNull | lib/json_formatter.py:283-285 | A list that empties during the pass is left as `None`, which a second pass removes, so stripping is not idempotent. |
| JsonFormatter.GeneralStepExtends | lib/json_formatter.py:167-183 | The general step only appends issues. |
| JsonFormatter.StagesExtend | lib/json_formatter.py:166-202 | Each of the four steps only appends issues to the report. |
| JsonFormatter.FormatRecordFacts | lib/json_formatter.py:164-214 | Whatever happens to a record, earlier issues, and any it recorded before raising, stay in the report. A record that succeeds comes back stripped. |
| JsonFormatter.FormatRecord | lib/json_formatter.py:164-214 | `_format_single_model`: the general, media, list and specification steps in turn, then null stripping; an exception in any step gives the failure message instead. |
| JsonFormatter.MissingGeneralReported | lib/json_formatter.py:183 | A record without `general` gets "Missing 'general' section in {file}" under "Unknown Model", after what that name held, and it stays whatever the later steps do. |
| JsonFormatter.FormatterOfWellBehaved | lib/json_formatter.py:164-214 | `_format_single_model` only appends issues and outputs stripped records. |
| JsonFormatter.ProcessedRecordsFacts | lib/json_formatter.py:151-158 | Each record adds one to `processed_models` or `failed_models`. One record is output per success, in order, and one error line is appended per failure. Issues are only appended, `total_models` is untouched by the loop, and every output is stripped. |
| JsonFormatter.ProcessedRecords | lib/json_formatter.py:151-158 | The record loop of `process_json_data`: the formatted records kept in order, and the report after each record. |
| JsonFormatter.ProcessedDataCounts | lib/json_formatter.py:149-162 | `total_models` grows by the list's length, or by 1. Successes plus failures grow by the same amount, there is one output per success, and one error line per failure. |
| JsonFormatter.ProcessedData | lib/json_formatter.py:138-162 | `process_json_data`: a list adds its length to `total_models` and runs the record loop; anything else counts and formats as one record. |
| JsonFormatter.JSONModelFormatter.GeneralPhase | lib/json_formatter.py:167-183 | The general part computes `GeneralStep`, and only the issue map changes. |
| JsonFormatter.JSONModelFormatter.MediaPhase | lib/json_formatter.py:185-192 | The media part computes `MediaStep`, and only the issue map changes. |
| JsonFormatter.JSONModelFormatter.ListsPhase | lib/json_formatter.py:194-197 | The list part computes `ListsStep`, and only the issue map changes. |
| JsonFormatter.JSONModelFormatter.SpecsPhase | lib/json_formatter.py:199-202 | The specification part computes `SpecsStep`, and only the issue map changes. |
| JsonFormatter.JSONModelFormatter.FormatSectionsIn | lib/json_formatter.py:244-266 | The section loop computes `FormattedSections`. |
| JsonFormatter.JSONModelFormatter.FormatSpecSection | lib/json_formatter.py:245-266 | One iteration computes `SectionStep`. |
| JsonFormatter.JSONModelFormatter.RunSteps | lib/json_formatter.py:166-202 | The four steps run in turn, each on what the one before left. Only the issue map changes. |
| JsonFormatter.JSONModelFormatter.Conclude | lib/json_formatter.py:204-214 | A step that raised adds the error line and one failure, and returns the record. Otherwise the record is stripped of nulls and counted as processed. |
| JsonFormatter.JSONModelFormatter.FormatSingleModel | lib/json_formatter.py:164-214 | Success is exactly `FormatRecord` succeeding, in which case its record is returned, and the report becomes `Apply` of the outcome. |
| JsonFormatter.JSONModelFormatter.ProcessRecords | lib/json_formatter.py:151-158 | The loop computes `ProcessedRecords`: the successes in order and the report after. |
| JsonFormatter.JSONModelFormatter.ProcessJsonData | lib/json_formatter.py:138-162 | Computes `ProcessedData`, so the counts of `ProcessedDataCounts` hold of the report it leaves. |
| ReportGenerator.TotalIssues | lib/report_generator.py:74 | The total is the length of all issue lists concatenated. |
| ReportGenerator.TotalIssuesAfterAdd | lib/json_formatter.py:22-26 | Every issue recorded through `add_issue` adds exactly one to the total. |
| ReportGenerator.GetSummaryStats | lib/report_generator.py:63-81 | The three counters are copied unchanged, and `total_issues` is the number of issues over all models. |
| ReportGenerator.CleanIssue | lib/report_generator.py:46 | The shown issue is a prefix of the issue. When " in " occurs it stops right before its first occurrence and contains none; otherwise it is the whole issue. |
| ReportGenerator.CleanIssueIdempotent | lib/report_generator.py:46 | Trimming twice is trimming once. |
| ReportGenerator.IssueLinesSnoc | lib/report_generator.py:45-47 | Issues are numbered from 1, in stored order: one more issue adds one more line, numbered one past the count so far. |
| ReportGenerator.IssueLinesAppend | lib/report_generator.py:45-47 | Splitting the issue list splits the lines, and the second part is numbered on from where the first stopped. |
| ReportGenerator.ModelSectionsSnoc | lib/report_generator.py:41-49 | Models appear in the map's order: one more model adds its block after the others. |
| ReportGenerator.ErrorLinesSnoc | lib/report_generator.py:55-57 | One line per error, in order. |
| ReportGenerator.ReportShape | lib/report_generator.py:22-59 | The report opens with the summary. It continues with the "No issues found" line when the map is empty, and the models' blocks otherwise. It closes with "No errors encountered!" when there is no error, and one line per error otherwise. |
| ReportGenerator.GenerateTextReport | lib/report_generator.py:10-61 | `generate_text_report`: the header with the summary counts, the issue part and the error part, in that order. |
| FileLoader.Categorize | lib/file_loader.py:92-112 | The loop returns the `.json` uploads and the archive uploads, each in upload order. |
| FileLoader.CategorizeFiles | lib/file_loader.py:93-112 | The loop of `categorize_files`: a `.json` name goes to the first list, another archive name to the second, anything else nowhere. |
| FileLoader.CategorizeIsFilters | lib/file_loader.py:103-112 | Categorising is two filters over the input. |
| FileLoader.CategorizePartitions | lib/file_loader.py:106-110 | The JSON list holds exactly the `.json` names and the archive list exactly the other archive names. A name of neither kind is in neither list. Each file lands in at most one list. |
| FileLoader.TarGzIsGz | lib/file_loader.py:109 | A name ending in `.tar.gz` also ends in `.gz`, so that alternative never changes the outcome. |
| Strings.StripEmptyIffBlank | lib/validators.py:82 | `str(item).strip()` is empty exactly when the text is whitespace only. |
| Strings.Strip | lib/validators.py:82 | `str.strip()` never lengthens, and leaves no whitespace at either end. |
| Strings.Split | lib/validators.py:18 | `split(" ")` gives at least one field, and no field contains the separator. |
| Strings.IndexOf | lib/report_generator.py:46 | The first position where " in " occurs in the issue, or nothing when it does not occur. `" in " in issue` holds exactly when there is one, and `issue.split(" in ")[0]` is the text before it. |
| Strings.JoinSplit | lib/validators.py:18-26 | Joining the fields of a split with the separator gives back the string. |
| Strings.SplitJoin | lib/validators.py:18-26 | Splitting a join of separator-free fields gives back the fields. |
| Strings.ReplaceAllDropsChar | lib/validators.py:35 | A replacement that drops one '.' can only make '.' rarer, and a text without '.' is unchanged. |
| Assoc.Put | lib/validators.py:110 | `d[k] = v` keeps the key order when `k` exists and appends it otherwise. `k` then maps to `v`, and every other key is unchanged. |
| Assoc.Remove | lib/validators.py:273-277 | `del d[k]` removes `k`, changes no other key and never lengthens the dictionary. |
| Assoc.PutDistinct | lib/validators.py:110 | `d[k] = v` never lists a key twice in a dictionary that had no key twice. |
| Assoc.PutTwice | lib/json_formatter.py:262-264 | Assigning a key twice is assigning it once, with the second value. |

## Left out

- The UI, including the Streamlit pages and `pages/JSON_URLs_Checker.py`, is not part of this model: it is user interface, network I/O and concurrency.
- `FileLoader.load_json_file`, `load_zip_archive` and `load_tar_archive` are not part of this model: they wrap `json`, `zipfile` and `tarfile`. Uploads are modelled by name only.
- `get_api_keys` is left out because it reads the secret store and the environment. Only the constants of `lib/config.py` are modelled.
- `_make_api_call` is left out because it calls the remote service. It is an oracle held by the client: a function from (key, prompt) to a raised exception or a list of strings. Every call in a batch sends a distinct key, so a function is general enough within a batch. Because the oracle is a function, the same key and prompt always get the same reply, even across runs; the remote service does not promise that.
- `_create_prompt_template` is left out: its text is a parameter (`instructions`). The numbered name list is modelled.
- `_handle_api_error` is left out because it only prints.
- All `print` output is left out.
- The `progress_callback` hook of `prebatch_model_names` is left out.
- The `datetime.now()` timestamp is left out: it is a parameter (`generatedOn`) of `GenerateTextReport`.
- Case rules are ASCII only; Unicode case mapping in `islower`, `upper`, `title` and `lower` is not modelled.
- `float()` is modelled for optional-sign, digits-and-one-dot strings only. Exponents, `inf`/`nan`, underscores and binary rounding are left out, and a decimal is kept exactly as `mantissa / 10^exponent`.
- `Repr` is Python's `repr` without escaping inside strings, and with floats in positional notation only. The exact wording of Python's exception messages is approximated.
- Python dictionary keys are compared as model values. Python's `1 == 1.0 == True` key equality is not modelled, and `Hashable` only rejects lists and dictionaries.
- TextRules.IsValidUrl: `urlsplit` is simplified. The URL has leading control characters and spaces removed and tabs and line breaks dropped. It is valid when it has a scheme (a letter, then letters, digits, `+`, `-` or `.`) followed by ":" and "//" and a non-empty network location with paired brackets. Port validation and IPv6 address checks are left out.
- TextRules.CapitalizeWords: the non-string branch is left out because the only caller always passes `str(...)`.
- TextRules.CamelCase: the non-string branch is left out because the only caller passes a dictionary key, which is a string.
- Records are values: each step returns the updated record instead of changing it in place. A record from `json.load` shares no sub-object, so the results are the same. Aliasing between records is not modelled.
- MediaValidator.Validate, JsonFormatter.JSONModelFormatter.FormatSingleModel: the three media validators, `validate_and_format`, the per-record formatter and a section's entry rule are passed as function values (`Validators`, `Shaper`, `RecordFormatter`, `EntryRule`). This keeps each proof about its own step; `StandardValidators` and `FormatterOf` bind them to the modelled code.
- JsonFormatter.CleanFields: a dictionary with a key twice would keep both entries, where Python's comprehension merges them. A dictionary never holds a key twice, so this case does not arise.
- JsonFormatter.UpdateFacts: the value-after-update clause assumes a duplicate-free mapping. Mappings returned by the client have distinct keys (`GeminiClient.PairKeys`, `GeminiClient.Identity`).
- GeminiClient.GeminiAPIClient.CapitalizeModelNamesBatch: the list of keys sent is a ghost out-parameter that exists only for the proof. The source does not return it.
- PyNumbers.PyInt: `int()` of a string accepts ASCII digits only. Python also accepts `_` between digits and non-ASCII decimal digits, so a year such as "2_020" becomes 2020 in Python and `None` here.
- `json.load` can produce `NaN`, `Infinity` and floats too large to be finite, which `Json` cannot hold. On such a year, `int()` raises `ValueError` or `OverflowError`. The validator does not catch `OverflowError`, so the record fails. This case is not modelled.
- Integers are unbounded, as in Python: the counters of `APIKeyManager` and `ModelReport` do not wrap.
