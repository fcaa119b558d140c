# Key issuer model

A Dafny model of the key issuer in `generatekey.py`: the command-line tool that
makes a batch of random access keys, computes one shared expiry date-time from
a duration unit and amount, and records the batch as a CSV file and as one
more entry in a run index.

Modules:

- `Wrappers` (`wrappers.dfy`): `Option` and `Result`.
- `Calendar` (`calendar.dfy`): proleptic Gregorian dates, leap years, month
  lengths, day numbers (day 1 is 0001-01-01), adding days, and
  `relativedelta(months=n)` / `relativedelta(years=n)` arithmetic with the
  day clamped to the target month.
- `Expiry` (`expiry.dfy`): `compute_expiry`. It lower-cases the unit, rejects
  anything other than days, weeks, months and years, then rejects an amount
  that is not positive, then shifts the wall-clock date-time. A result after
  year 9999 fails, as Python's `datetime` does.
- `KeyCodec` (`keycodec.dfy`): `make_key`. The 16 random bytes are a
  parameter. They are encoded with the URL-safe Base64 alphabet of section 5
  of RFC 4648, the `=` padding is stripped, and `KEY-` is put in front. The
  module also has a strict decoder, and proofs that decoding and encoding are
  inverse in both directions.
- `Outputs` (`outputs.dfy`): the data `write_outputs` produces, with the files
  taken away. These are the CSV rows (header, then one row per key) and the
  run index (the previous list, or an empty one, with exactly one summary
  appended).

Two behaviours of the code that are easy to miss, both modelled as written:

- `--count` is never checked (generatekey.py:105). `range(count)` with
  `count <= 0` makes no keys (generatekey.py:113), so the run still succeeds
  with an empty batch (`MakeKeys`, `SummaryCountsKeys`).
- The `try`/`except` at generatekey.py:82-85 guards only reading and parsing
  `index.json`: a missing file, an unreadable file and text that `json.loads`
  rejects all give an empty list. A file holding valid JSON that is not a
  list gets past it, and `index.append` (generatekey.py:86) then raises
  AttributeError. `AppendRunSummary` returns `Err(NotAList(..))` in that case.

## Model

| member | source | states |
|---|---|---|
| `Calendar.DaysInMonth` | generatekey.py:35-38 | month lengths are 28 to 31 days; 29 exactly for February of a leap year, 30 exactly for April, June, September and November |
| `Calendar.OrdinalNextDay` | generatekey.py:31-34 | the day after a date has the next day number, across month and year ends |
| `Calendar.AddDays` | generatekey.py:31-34 | the date n days later, as `timedelta(days=n)` computes it: a valid date whose day number is exactly n higher |
| `Calendar.AddDaysAdditive` | generatekey.py:31-32 | a general law of day shifts: shifting by a days and then by b days is shifting by a + b days |
| `Calendar.OrdinalInjective` | generatekey.py:31-34 | two valid dates with the same day number are equal |
| `Calendar.AddDaysUnique` | generatekey.py:31-34 | a valid date is exactly n days after d if and only if it is AddDays(d, n) |
| `Calendar.AddMonths` | generatekey.py:35-36 | relativedelta(months=n): the result is valid, its year*12+month index is the start's plus n, and its day is the start's day, or the target month's last day when the start's day does not exist there |
| `Calendar.AddYears` | generatekey.py:37-38 | relativedelta(years=n): the result is a valid date with the same month and the year moved by n |
| `Calendar.AddYearsIsTwelveMonths` | generatekey.py:35-38 | adding n years equals adding 12*n months |
| `Calendar.AddYearsDay` | generatekey.py:37-38 | adding years keeps the day, except that 29 February becomes 28 February in a common target year |
| `Expiry.LowerChar` | generatekey.py:25 | ASCII capitals become lower case, the Kelvin sign becomes `k`, any other character is kept, and no result is an ASCII capital or the Kelvin sign |
| `Expiry.Lower` | generatekey.py:25 | lower-casing keeps the length and leaves no ASCII capital and no Kelvin sign in the result |
| `Expiry.LowerIdempotent` | generatekey.py:25 | lower-casing an already lower-cased unit changes nothing |
| `Expiry.ParseUnit` | generatekey.py:25-27 | a unit is accepted exactly when its lower-cased form is days, weeks, months or years, and it then names that unit |
| `Expiry.ParseUnitIgnoresCase` | generatekey.py:25-27 | lower-casing the unit first never changes whether or which unit it names |
| `Expiry.LowerCharSameUpToCase` | generatekey.py:25 | two characters that are the same letter up to case (an ASCII capital and its small letter, or the Kelvin sign and `K`/`k`) lower-case to the same character |
| `Expiry.ParseUnitCaseBlind` | generatekey.py:25-27 | two spellings of equal length that differ only in letter case name the same unit, or are both rejected |
| `Expiry.ParseUnitMixedCase` | generatekey.py:25-27 | `Months`, `DAYS` and `wEeKs` are accepted |
| `Expiry.ParseUnitKelvinSign` | generatekey.py:25-27 | `WEE` + Kelvin sign + `S` is accepted as weeks, as `str.lower` maps the Kelvin sign to `k` |
| `Expiry.ParseUnitRejects` | generatekey.py:26-27 | `year`, `hours` and the empty string are rejected |
| `Expiry.Shift` | generatekey.py:31-38 | the unit dispatch keeps the time of day and gives a valid date: days and weeks raise the day number by `amount` and 7*`amount`, months raise the year*12+month index by `amount`, years raise the year by `amount` and keep the month |
| `Expiry.ComputeExpiry` | generatekey.py:24-41 | the result is InvalidUnit exactly for an unknown unit; it is NonPositiveAmount exactly for a known unit with amount <= 0; a success has a known unit and a positive amount, is a valid Python date-time and keeps the time of day |
| `Expiry.UnitCheckedFirst` | generatekey.py:26-29 | a bad unit is reported as InvalidUnit whatever the amount |
| `Expiry.ExpiryDays` | generatekey.py:31-32 | for days the expiry is exactly `amount` calendar days later at the same time of day |
| `Expiry.ExpiryWeeks` | generatekey.py:33-34 | for weeks the expiry is exactly 7*`amount` calendar days later at the same time of day |
| `Expiry.WeeksAreSevenDays` | generatekey.py:31-34 | `amount` weeks gives the same outcome, error or date-time, as 7*`amount` days |
| `Expiry.ExpiryMonths` | generatekey.py:35-36 | for months the month index advances by `amount` with year carry, the day is min(start day, length of target month), the time of day is kept |
| `Expiry.ExpiryYears` | generatekey.py:37-38 | for years the month is kept, the year advances by `amount`, 29 February clamps to 28 February exactly when the target year is common, any other day is kept |
| `Expiry.YearsAreTwelveMonths` | generatekey.py:26-38 | for every amount, `amount` years gives the same outcome as 12*`amount` months, the non-positive-amount error included |
| `Expiry.OnlyRangeErrorsRemain` | generatekey.py:24-41 | with a valid unit and positive amount the only failure is OutOfRange, and it happens exactly when the shifted date passes year 9999 |
| `Expiry.MonthEndLeapExample` | generatekey.py:35-36 | 2024-01-31 09:30 + 1 month = 2024-02-29 09:30 |
| `Expiry.MonthEndCommonExample` | generatekey.py:25-36 | 2023-01-31 + 1 `Months` = 2023-02-28 |
| `Expiry.MonthEndCarryExample` | generatekey.py:35-36 | 2024-11-30 + 3 months = 2025-02-28 |
| `Expiry.LeapDayCommonExample` | generatekey.py:37-38 | 2024-02-29 + 1 year = 2025-02-28 |
| `Expiry.LeapDayLeapExample` | generatekey.py:37-38 | 2024-02-29 + 4 years = 2028-02-29 |
| `Expiry.PastYear9999Example` | generatekey.py:35-36 | 9999-12-01 + 1 month fails with OutOfRange |
| `Expiry.ThirtyDaysExample` | generatekey.py:31-32 | 2024-01-01 00:00 + 30 days = 2024-01-31 00:00 |
| `KeyCodec.Symbol` | generatekey.py:21 | every 6-bit value maps to a character of the URL-safe alphabet |
| `KeyCodec.SymbolIndex` | generatekey.py:21 | every character of the URL-safe alphabet has a 6-bit value that maps back to it |
| `KeyCodec.SymbolIndexOfSymbol` | generatekey.py:21 | the symbol of a 6-bit value gives back that value |
| `KeyCodec.AlphabetOrder` | generatekey.py:21 | the table of section 5 of RFC 4648: 0-25 are `A`-`Z`, 26-51 `a`-`z`, 52-61 `0`-`9`, 62 `-` and 63 `_`, each run in consecutive character order |
| `KeyCodec.EncodePadded` | generatekey.py:21 | the padded encoding is a multiple of 4 characters long |
| `KeyCodec.StripPadding` | generatekey.py:21 | `rstrip("=")` keeps a prefix, removes only `=` characters, and leaves no `=` at the end |
| `KeyCodec.Encode` | generatekey.py:21 | the unpadded encoding of n bytes has 4*(n/3) + 0, 2 or 3 characters, all from the URL-safe alphabet |
| `KeyCodec.StrippedEncoding` | generatekey.py:21 | stripping `=` from the padded encoding gives exactly the unpadded encoding |
| `KeyCodec.SextetsAppend` | generatekey.py:21 | encoding works group by group: after a whole number of 3-byte groups, the remaining bytes are encoded on their own |
| `KeyCodec.VectorF` | generatekey.py:21 | `f` encodes as `Zg==` (section 10 of RFC 4648) |
| `KeyCodec.VectorFo` | generatekey.py:21 | `fo` encodes as `Zm8=` |
| `KeyCodec.VectorFoo` | generatekey.py:21 | `foo` encodes as `Zm9v` |
| `KeyCodec.VectorFoob` | generatekey.py:21 | `foob` encodes as `Zm9vYg==` |
| `KeyCodec.VectorFoobar` | generatekey.py:21 | `foobar` encodes as `Zm9vYmFy` |
| `KeyCodec.VectorUrlSafeSymbols` | generatekey.py:21 | the bytes FB EF FF encode as `--__`, the two symbols where base64url differs from base64 |
| `KeyCodec.KeyVector` | generatekey.py:20-22 | the 16 bytes 0, 1, ..., 15 encode as `AAECAwQFBgcICQoLDA0ODw`, so with `StrippedEncoding` their key is `KEY-AAECAwQFBgcICQoLDA0ODw` |
| `KeyCodec.JoinSplitSextets` | generatekey.py:21 | joining the 6-bit values of any byte string gives the byte string back |
| `KeyCodec.SplitJoinSextets` | generatekey.py:21 | 6-bit values that join into bytes are exactly the values those bytes split into, so leftover bits are zero |
| `KeyCodec.DecodeEncode` | generatekey.py:21 | decoding the encoding of any byte string gives the byte string back |
| `KeyCodec.EncodeDecode` | generatekey.py:21 | any text the decoder accepts is the encoding of what it decodes to |
| `KeyCodec.MakeKey` | generatekey.py:18-22 | every key starts with `KEY-` |
| `KeyCodec.MakeKeyShape` | generatekey.py:18-22 | a key made from 16 bytes is `KEY-` and 22 URL-safe characters, with no `=` |
| `KeyCodec.ParseMakeKey` | generatekey.py:18-22 | every key parses back to the 16 bytes it was made from |
| `KeyCodec.MakeParseKey` | generatekey.py:18-22 | a string that parses to some bytes is exactly the key made from them |
| `KeyCodec.MakeKeyInjective` | generatekey.py:18-22 | different random bytes give different keys |
| `KeyCodec.MakeKeys` | generatekey.py:113 | one key per random block, in order, each parsing back to its block |
| `KeyCodec.MakeKeysDistinct` | generatekey.py:113 | pairwise different random blocks give pairwise different keys |
| `Outputs.BatchColumns` | generatekey.py:61-71 | each of the six columns after the key holds the payload entry named by its header cell (`payload[name]`, and the tag defaulting to empty) |
| `Outputs.CsvRows` | generatekey.py:58-71 | the rows are the fixed 7-column header followed by one row per key in key order; row i starts with key i and every row carries the same batch columns |
| `Outputs.SummaryJson` | generatekey.py:86-94 | the index entry is a JSON object with seven fields from which the whole run summary reads back by field name |
| `Outputs.Summarize` | generatekey.py:86-94 | the summary's count is the number of keys, and its other fields are the run name and the payload's unit, amount, stamps and tag (empty when absent) |
| `Outputs.AppendedIndex` | generatekey.py:80-94 | reading the index and appending succeeds exactly when the file is missing, unreadable or holds a list; `AppendKeepsIndex` gives the contents |
| `Outputs.AppendKeepsIndex` | generatekey.py:78-96 | the new index is the previous list (empty if the file is missing or unreadable) with exactly one summary appended at the end and all earlier entries unchanged; it fails exactly when the file holds JSON that is not a list |
| `Outputs.AppendRunSummary` | generatekey.py:78-96 | the read-then-append step returns exactly `AppendedIndex`, so it has all the properties `AppendKeepsIndex` proves |
| `Outputs.IndexAfterStep` | generatekey.py:78-96 | one more run, reading back the list the earlier runs left, appends exactly its own summary to it |
| `Outputs.IndexAfterRuns` | generatekey.py:78-96 | after N runs starting with no index file, the index holds N entries, the i-th summarising the i-th run |
| `Outputs.SummaryCountsKeys` | generatekey.py:90 | the summary's count is the number of keys made, max(count, 0), which differs from a negative requested count |

## Left out

- `secrets.token_bytes(16)`: randomness is not modelled. The random bytes are a parameter of `MakeKey` and `MakeKeys`. That keys are unique is proved only for distinct random blocks (`MakeKeysDistinct`); how likely a collision is is not modelled.
- `datetime.now(PHT)`, the `Asia/Manila` zone, `astimezone(timezone.utc)`, `timestamp()` and `isoformat()` (`to_rfc3339`): clock, time-zone data and library formatting. The model takes the current wall-clock date-time as an input. The rendered stamps and the unix expiry reach `Outputs` as given values.
- The run folder name comes from a second clock read. It is the parameter `run`.
- All file effects: `mkdir`, writing `keys.json`, `keys.csv` and `latest.json`, reading and rewriting `index.json`, and `print`. `keys.json` and `latest.json` receive the payload unchanged. The CSV writer's quoting and its rendering of numbers as text are not modelled. Nor is JSON parsing or serialisation. `IndexFile` says what the read produced, and `IndexAfter` assumes each run reads back exactly the list the previous run wrote.
- `argparse` and the rest of `main`: flag parsing, its `choices` check on the unit, and assembling the payload dictionary. A payload missing a key other than `tag` would raise KeyError, which is not modelled.
- Expiry.Lower: models `str.lower` only for ASCII capitals and the Kelvin sign (U+212A, which becomes `k`), and keeps every other character. The only other character whose lower-case form holds an ASCII letter is U+0130, capital I with dot above. Python turns it into two characters, `i` followed by the combining dot U+0307, while the model keeps U+0130 as one character. Neither U+0130 nor U+0307 occurs in any unit name, so a string containing U+0130 is rejected in both, and whether a unit is accepted is decided exactly as in Python. Lengths of lower-cased strings can differ from Python's for such input.
- Expiry.ComputeExpiry: does not tell the ValueError that `datetime.replace` raises past year 9999 apart from the OverflowError that `timedelta` addition raises. Both are `OutOfRange`. The unreachable fallback `return now_pht` has no counterpart, because the four units are matched exhaustively.
- Outputs.Json: JSON numbers are integers only, because the index entries the program writes hold no floats.
- The key store, with its hash index and key validation, is not part of this model; it is not in `generatekey.py`.
