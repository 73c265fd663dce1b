# Emoji shortcut mapping — Dafny model

A Dafny model of the data logic of the Emoji Importer web app (`app.py`). The app turns the `emoji` library's
metadata table into a flat list of `{phrase, shortcut}` pairs, such as `🔥` → `:fire`. It keeps that list in a
process-wide cache. It serves the first ten pairs as a preview, and the whole list as a download: a property
list for the `ios` platform and a CSV file for any other platform.

Modules, leaf first:

- `Wrappers` (`wrappers.dfy`): `Option` and `Result`.
- `Text` (`text.dfy`): the name cleaning `raw_name.replace(":", "").strip().lower()`, as `RemoveColons`,
  `Strip` and `Lower`, composed in `Clean`. Whitespace is exactly the set of code points for which Python's
  `str.isspace` holds.
- `EmojiSource` (`source.dfy`): the metadata as the Python values the builder sees. `Value` is a string, a
  dict (an ordered sequence of string-keyed pairs, in `dict.items()` order) or anything else. `Source` is the
  tagged union for the attribute the installed library offers: `V2` (`EMOJI_DATA`), `V1` (`UNICODE_EMOJI`), or
  `Unavailable`, which stands for the `getattr(..., {})` default.
- `Builder` (`builder.dfy`): shape resolution (`Resolve`), per-entry name extraction and emission (`RawName`,
  `Step`), and the loop (`BuildItems`, `Build`). The loop is written as `Collect` over the per-entry outcomes
  (`Outcomes`). `Collect` keeps every emitted value and stops at the first entry that raises. The order and
  error lemmas are proved once about `Collect`, then restated for the emoji table.
- `Export` (`export.dfy`): the preview slice, the CSV text, the platform dispatch, and a CSV reader used only
  to state the round trip.
- `App` (`app.py`'s global state and handlers, in `app.dfy`): the cache is an explicit `Cache` value passed
  into each call and returned from it, instead of a mutable global. `GetMappings`, `Index` and `Download` each
  return the new cache together with their answer.

Points where the code behaves differently from what one might expect, which the model follows:

- A malformed entry is not always skipped. The build raises in three cases: a version-1 value that is not a
  string, a version-2 `'en'` value that is not a string (`str.replace` is missing), and a top-level `'en'` in
  `UNICODE_EMOJI` that is not a dict (`.items()` is missing). The model returns `Failure` in these cases. Only
  version-2 entries that are not records are skipped (`continue`).
- When the build raises, `CACHED_MAPPINGS` stays `None`, so the next request builds again. `GetMappings`
  leaves the cache unchanged on failure.
- A cached empty list counts as filled, because the check is `is not None`.
- The comment on line 40 says `":thumbs_up:"` becomes `"thumbs up"`. The code only removes colons, so the
  underscore stays: the result is `"thumbs_up"`.
- The code has no lock around the first build, so concurrent first requests may each build; concurrency is
  not modelled.

## Model

| member | source | states |
|---|---|---|
| Text.RemoveColons | app.py:41 | the result has no colon, and its multiset of characters is the input's with every colon dropped; a colon-free input is returned as is |
| Text.RemoveColonsOne | app.py:41 | a single colon becomes empty and any other single character is kept |
| Text.RemoveColonsAppend | app.py:41 | removing colons from a concatenation concatenates the two results, so the kept characters stay in their order |
| Text.RemoveColonsLeavesSpace | app.py:41 | after the colons are removed only whitespace is left if and only if the raw name held nothing but colons and whitespace |
| Text.Strip | app.py:41 | the result is a slice of the input with only whitespace on either side, has no whitespace at either end, and is empty exactly when the input is all whitespace |
| Text.StripUnique | app.py:41 | any slice bordered by whitespace with non-whitespace ends is what `strip()` returns, so `Strip` is fully determined by those properties |
| Text.Lower | app.py:41 | each capital becomes the letter 32 code points above it and every other character is kept, so the length, whitespace and colons are unchanged and no capital is left |
| Text.LowerAppend | app.py:41 | lower-casing a concatenation lower-cases each part, so it works character by character |
| Text.Clean | app.py:41 | the cleaned name has no colon, no surrounding whitespace and no upper-case letter, and it is empty exactly when the raw name is only colons and whitespace |
| Text.CleanFixedPoint | app.py:41 | cleaning returns its input unchanged if and only if the input is already clean |
| Text.CleanIdempotent | app.py:41 | cleaning a cleaned name changes nothing |
| EmojiSource.Lookup | app.py:36 | `dict.get`: absent exactly when no pair has the key; when present, the value belongs to a pair with that key |
| Builder.Resolve | app.py:22-30 | `EMOJI_DATA` is read as version-2 records; `UNICODE_EMOJI` is unwrapped once when it has an `'en'` dict, raises when that `'en'` value is not a dict, and is used as it is otherwise; a missing table is empty |
| Builder.RawName | app.py:34-38 | a version-2 non-record is skipped; a version-2 record reads its `'en'` string, or `""` when there is none; a version-1 string is the name; the read fails, naming the character, exactly when the value found is not a string |
| Builder.Step | app.py:34-46 | an entry raises exactly when its name cannot be read, and a skipped entry emits nothing; an entry whose name was read emits if and only if the name is more than colons and whitespace, and then the pair has the entry's character as phrase and `:` followed by the cleaned name as shortcut |
| Builder.BuildItems | app.py:32-46 | a built mapping has one pair per emitting entry (so no more than the table has); an entry emits a pair if and only if that pair sits at the position given by the number of emitting entries before it, so table order is kept and nothing else is in the mapping |
| Builder.BuildItemsWellFormed | app.py:38-46 | every built pair has a shortcut that is a colon followed by a non-empty clean name, and a phrase that is a key of the table |
| Builder.Build | app.py:20-47 | a missing table builds the empty mapping, a non-dict `'en'` table fails, and otherwise the resolved table's entries are built with the shape's version |
| Builder.Collect | app.py:32-46 | the loop keeps at most one value per entry |
| Builder.CollectCountsKept | app.py:43-46 | the result has one value per emitting entry |
| Builder.CollectPlacesKept | app.py:43-46 | an emitting entry's value lands at the position given by the number of emitters before it |
| Builder.CollectOnlyKept | app.py:43-46 | every position of the result holds the value of the emitting entry with that many emitters before it |
| Builder.CollectKeepsOrder | app.py:43-46 | the loop's result holds exactly the emitted values, each at the position given by the number of emitters before it |
| Builder.CollectNothing | app.py:43 | entries that all skip give the empty result |
| Builder.CollectSkipsNothing | app.py:43 | removing an entry that neither emits nor raises leaves the loop's result unchanged |
| Builder.CollectFailsAtFirstError | app.py:32-46 | the loop fails exactly when some entry raises, and then with the first entry's error |
| Builder.BuildFailsAtFirstError | app.py:34-41 | the build fails exactly when some entry holds a non-string name (a version-1 value, or a version-2 `'en'` value), and the error names the first such character |
| Builder.NamelessEntryEmitsNothing | app.py:34-43 | a version-2 entry that is not a record, or has no `'en'` name, emits nothing and raises nothing |
| Builder.BuildIgnoresNamelessEntry | app.py:32-46 | removing a nameless version-2 entry from any position of the table leaves the build unchanged |
| Builder.V2NamelessEntriesContributeNothing | app.py:34-43 | a version-2 table made only of nameless entries builds the empty mapping |
| Export.Preview | app.py:58 | the preview has exactly min(10, n) pairs and is a prefix of the mapping |
| Export.ToCsv | app.py:74-76 | the text starts with the header, is the header alone for an empty mapping, and ends with a newline |
| Export.ToCsvAppend | app.py:75-76 | adding a pair to the mapping appends exactly its row `shortcut,phrase,en` to the text |
| Export.CsvRowsAppend | app.py:75-76 | the rows of a mapping with one more pair are the old rows followed by that pair's row |
| Export.CsvLineCount | app.py:74-76 | when no field contains a line break, the text has exactly one newline per pair plus one for the header |
| Export.CsvRowsLineCount | app.py:75-76 | when no field contains a line break, the rows hold one newline per pair |
| Export.CsvRoundTrip | app.py:74-76 | when no field contains a comma or a line break, reading the text back gives the mapping it was written from |
| Export.CsvRowsRoundTrip | app.py:75-76 | when no field contains a delimiter, reading the rows back gives the pairs in order |
| Export.CsvFireExample | app.py:74-76 | the one-pair mapping `🔥`/`:fire` gives exactly `shortcut,phrase,locale\n:fire,🔥,en\n` |
| Export.CsvCommaCollision | app.py:76 | because fields are not quoted, two different mappings can give the same text |
| Export.ExportFor | app.py:68-78 | the property list is chosen if and only if the platform is `ios`, and it gets the whole mapping under `TypewiseEmojis.plist`; any other platform gets the CSV text under `TypewiseEmojis.csv` |
| App.GetMappings | app.py:14-50 | a filled cache is returned without building; an empty one builds from the source, is filled on success, and stays empty on failure |
| App.FilledCacheIsFinal | app.py:16-17 | once filled, every later call returns the same mapping whatever the source, and the cache never changes |
| App.BuildsUntilFirstSuccess | app.py:12-17 | from process start, a call builds only while every earlier call failed; after the first success all calls return that success's mapping |
| App.BuildsWhileFailing | app.py:12-17 | from process start, a call builds from its own source while every earlier call failed |
| App.SuccessIsFinal | app.py:14-17 | after a call succeeds, every later call returns the mapping that call built |
| App.Index | app.py:53-62 | the page shows a prefix of the cached mapping of length min(10, n); it is an error page exactly when the build fails, and then it carries that build's error |
| App.Download | app.py:65-80 | the reply is the property list of the cached mapping if and only if the platform is `ios`, otherwise its CSV file; it is an error reply exactly when the build fails, and then it carries that build's error |
| App.EmptySourceEndToEnd | app.py:22-30 | with no metadata the preview is empty, the CSV file is the header alone, and the property list is empty |

## Left out

- Flask routing, `render_template`, `send_file`, `io.BytesIO` and the `print` logging (app.py lines 1-9, 19, 48, 52-62, 64-84) are HTTP and I/O plumbing. The handlers are modelled as functions that return the data they would render or send.
- `plistlib.dump` is a foreign serialiser. The model records only that the `ios` branch hands it the full mapping (`PlistRecords`).
- The UTF-8 encoding of the CSV text (line 77) is library behaviour. The CSV is modelled as a `string`.
- The `emoji` library's data tables are an input: `Source` is a parameter of every call.
- The text of the error messages (lines 60-62, 79-80) is left out. A failed build yields `IndexError` or `DownloadError` carrying the `BuildError` kind. The character in `NameNotText` is the model's tag for the entry that raised; Python's `AttributeError` message names the value's type instead, and does not contain the character.
- Exceptions other than those of the build loop (a failing template or serialiser) are not modelled.
- Text.Lower: lower-cases only ASCII and Latin-1 capitals. Python's `str.lower` also maps the rest of Unicode, including some letters that lower-case to two code points, and a capital sigma, which becomes final `ς` or `σ` depending on the letters around it.
- EmojiSource.Value: non-string dict keys and the distinctions among non-string, non-dict values (numbers, lists, `None`) are not modelled, since the code treats them all alike.
- EmojiSource.Lookup: returns the first pair with the key. A Python dict has unique keys, so it agrees with `dict.get` on every real dict.
- Concurrent first access to the cache is not modelled. The code has no lock.
