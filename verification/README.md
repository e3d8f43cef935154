# EiBi to kiwiSDR schedule conversion, modelled in Dafny

The repository turns EiBi shortwave broadcast schedules (semicolon-separated
CSV) into the kiwiSDR DX-label format, in two stages.

- **CSV stage.** `eibi2kiwi.py` converts a local file. `eibi2kiwi_online.py`
  converts a downloaded file and resolves transmitter sites through a lookup
  table. Each data row becomes a twelve-column kiwiSDR line: frequency, the
  band `"QAM"`, the quoted identifier, the notes, the `T3`/`T4` tag, the day
  field as seven letters (`MTWTFSS`, with `_` for days off), and the begin and
  end times. The online script also drops "one-day" rows and sorts its output
  by frequency.
- **JSON stage.** `eibi2kiwi_json.py` reads those lines back. It
  percent-encodes the identifier and notes and packs the times and the day
  letters into a metadata object: `"T3"`, `"b0"`, `"e0"` and `"d0"`, where
  `"d0"` is the letters read as a 7-bit number with Monday as the most
  significant bit.

The model covers the weekday codec, the per-row rules of both CSV scripts,
the JSON stage's row conversion, and the round trip between the two stages.
Everything is pure functions over sequences. Python exceptions become the
`Failure` branch of a `Result`, and the first failing row ends a run, as the
exception would.

Modules, one per file:

| module | file | contents |
|---|---|---|
| `Wrappers` | wrappers.dfy | `Option`, `Result` |
| `Text` | text.dfy | `strip`, `split`, `join`, `replace` of one character, `isdigit` on ASCII |
| `Numerals` | numerals.dfy | `int()` and `float()` on plain decimal text, read as exact numbers |
| `Binary` | binary.dfy | big-endian values of bit sequences |
| `Weekdays` | weekdays.dfy | the abbreviation list, the `days` dictionary, the day initials |
| `DayCodec` | day_codec.dfy | the weekday helper functions and the day-field dispatch of both scripts |
| `DayFields` | day_fields.dfy | what each day-field syntax produces, with the scripts' own examples |
| `FreqSort` | freq_sort.dfy | `list.sort(key=…)` as a stable insertion sort |
| `Schedule` | schedule.dfy | per-row rules of both CSV scripts, whole runs, the standalone loop with its `DOW` variable |
| `PercentEncoding` | percent_encoding.dfy | `quote`, the replace chain, the lower-casing `re.sub`, a per-byte reference encoding, decoding |
| `KiwiJson` | kiwi_json.dfy | `day_schedule_to_int`, one row of `csv_to_json`, the whole loop |
| `Pipeline` | pipeline.dfy | a written line read back by the JSON stage |

Both CSV scripts share one day codec, `DayCodec`. A `Variant` parameter
carries the one place they differ. The online script refuses a field that
ends in a hyphen as a range (`eibi2kiwi_online.py:239`). The standalone
script tries to expand such a field and fails.

Three facts about the code shape the model:

- **Days do not carry over.** `DOW` starts empty and the standalone script
  clears it after every row (`eibi2kiwi.py:25`, `eibi2kiwi.py:192`). A row
  whose day field matches no branch therefore gets an empty day field.
  `Schedule.StandaloneScript` runs the loop with the variable living across
  rows and proves the result equals the row-by-row conversion.
- **"M_WTF__" reads as 92.** This is binary `1011100`, and
  `KiwiJson.ScheduleExamples` proves it.
- **Offsets come from the time columns.** The JSON stage reads `"b0"` and
  `"e0"` from columns 10 and 11, which hold the begin and end times. A record
  written with times `0600` and `1800` gets `"b0": 600` and `"e0": 1800`
  (`Pipeline.WrittenLine`).

## Model

| member | source | states |
|---|---|---|
| Weekdays.ParseAbbrev | eibi2kiwi.py:42-45 | A token names a weekday exactly when it is one of the seven abbreviations, and then exactly the weekday whose abbreviation it is; those are exactly the keys of `days`. |
| Weekdays.OneHot | eibi2kiwi.py:26-34 | A weekday's `days` entry has 7 characters, all `0` or `1`, with its single `1` at the weekday's position. |
| Weekdays.DaysDictOneHot | eibi2kiwi.py:26-34 | Every `days` entry is the one-hot string of the weekday its key names. |
| DayCodec.ExpandWeekdayRange | eibi2kiwi.py:37-50 | A range with other than one hyphen fails with the number of parts. A range succeeds exactly when it has two parts that are both abbreviations. |
| DayCodec.ExpandRange | eibi2kiwi.py:37-50 | "Xx-Yy" expands to the days met walking forward from Xx to Yy, passing from Sunday to Monday. The walk has end − start + 1 days without the wrap and 8 − start + end days with it. |
| DayCodec.SliceIsCyclic | eibi2kiwi.py:46-49 | Both slice forms of the script (the straight slice, and the tail joined to the head) equal the independently defined cyclic walk. |
| DayCodec.LookupDays | eibi2kiwi.py:58-61 | The lookup succeeds exactly when every token is a `days` key, and then gives each token's entry in order. A failure names a token that is not a key. |
| DayCodec.ListToBinstrings | eibi2kiwi.py:53-61 | A comma-joined list of abbreviations gives the one-hot strings of its days, in list order. |
| DayCodec.WeekdaysToBinstrings | eibi2kiwi.py:53-61 | A successful lookup gives one bit string per comma-separated token, each a `days` entry. A failure names a comma-free token that is not a key (KeyError). `DayCodec.ListToBinstrings` pins the value for a joined list of abbreviations. |
| DayCodec.NumbersToBinstrings | eibi2kiwi.py:64-75 | A digit string converts exactly when it holds no `8` or `9`. Each digit d maps in order to the one-hot string of weekday d, and `0` maps to Sunday through Python's index −1. |
| DayCodec.WeekdayNumbersToBinstrings | eibi2kiwi.py:64-75 | The function carries no contract of its own. `DayCodec.NumbersToBinstrings` states what it computes: it succeeds exactly without `8` and `9`, and gives the one-hot strings of the digits' weekdays in order. `DayCodec.DigitNamesSpec` and `DayCodec.DigitNamesFail` state the same for its loop. |
| DayCodec.DigitNamesSpec | eibi2kiwi.py:70-74 | The digit loop yields, in order, the abbreviation of each digit's weekday under the reference map 1→Mo … 7→Su, 0→Su. |
| DayCodec.DigitNamesFail | eibi2kiwi.py:72-74 | On digits, the loop fails exactly when some digit is above 7. |
| DayCodec.CreateWeeklyBinstring | eibi2kiwi.py:78-89 | An empty list gives "". Otherwise the result has the length of the shortest input, as `zip` has, and position i is `1` exactly when some input has a `1` at i. |
| DayCodec.CombineSameElements | eibi2kiwi.py:78-89 | The combined string depends only on which strings occur, not on their order or repetition. |
| DayCodec.CombineOneHots | eibi2kiwi.py:78-89 | OR-combining the one-hot strings of a nonempty weekday list gives the 7-bit mask of the set of days it names. |
| DayCodec.BinstringToDecimal | eibi2kiwi.py:92-105 | A string of only `0` and `1` gives its big-endian value, which is below 2^len. Any other string comes back unchanged. |
| DayCodec.BinstringToDowstring | eibi2kiwi.py:108-119 | The result has the input's length, with the day initial where the bit is `1` and `_` elsewhere. It fails exactly when a `1` stands beyond the seventh position (IndexError). |
| DayCodec.Render | eibi2kiwi.py:112-118 | The letters of a set of days have 7 characters, with a letter exactly at the positions of days in the set. |
| DayCodec.DowOfMask | eibi2kiwi.py:108-119 | Rendering the mask of a set of days gives that set's letters. |
| DayCodec.Classify | eibi2kiwi.py:134-150 | The dispatch has no contract of its own. The `DayFields` lemmas state which branch each field syntax takes: digits, then the list forms (comma, single day, "SaSu", "1."), then a range, where the online script also excludes a trailing hyphen (eibi2kiwi_online.py:239). `DayFields.ListPriorityExample` shows the comma winning over the hyphen. |
| DayCodec.DayBinstring | eibi2kiwi.py:133-150 | A day field yields no bit string exactly when it matches no branch of the dispatch. A bit string it does yield has 7 characters of `0` and `1`. |
| DayCodec.DayLetters | eibi2kiwi.py:133-150 | The day letters are empty exactly when no branch matches. Otherwise they are 7 characters, each `_` or that position's initial. |
| DayFields.ListField | eibi2kiwi.py:138-145 | A comma list of abbreviations, or a single one, lights exactly the named days, whatever their order and repetition. |
| DayFields.SaSuField | eibi2kiwi.py:139-140 | "SaSu" lights Saturday and Sunday. |
| DayFields.PrefixField | eibi2kiwi.py:141-142 | A "1." prefix is dropped and the rest is read as a list. |
| DayFields.RangeField | eibi2kiwi.py:146-150 | "Xx-Yy" lights exactly the days of the cyclic walk from Xx to Yy. |
| DayFields.DigitField | eibi2kiwi.py:134-137 | A digit field without 8 or 9 lights the days of its digits. |
| DayFields.DigitFieldOutOfRange | eibi2kiwi.py:72-74 | A digit field containing 8 or 9 fails the row. |
| DayFields.TrailingHyphenOnline | eibi2kiwi_online.py:239 | In the online script, a field ending in a hyphen that matches no earlier branch yields empty day letters. |
| DayFields.TrailingHyphenStandalone | eibi2kiwi.py:146-147 | In the standalone script, "Mo-" is taken as a range and fails on the empty endpoint. |
| DayFields.TrailingHyphenExample | eibi2kiwi_online.py:239 | In the online script, "Mo-" gives empty day letters. |
| DayFields.UnmatchedIsEmpty | eibi2kiwi.py:151-152 | A field that matches no branch is not an error: it yields empty letters. |
| DayFields.RangeExample | eibi2kiwi.py:37-50 | "Mo-Th" expands to "Mo,Tu,We,Th". |
| DayFields.WrapRangeExample | eibi2kiwi.py:37-50 | "Sa-Tu" expands to "Sa,Su,Mo,Tu". |
| DayFields.WrapExample | eibi2kiwi_online.py:239-243 | The day field "Sa-Tu" is written "MT___SS". |
| DayFields.DigitExamples | eibi2kiwi.py:64-119 | "1345" is written "M_WTF__", and "0" is written "______S". |
| DayFields.DigitErrorExample | eibi2kiwi.py:73-74 | "8" fails with an out-of-range digit. |
| DayFields.ArityExample | eibi2kiwi.py:43 | "Mo-Tu-We" fails because it has three parts. |
| DayFields.EndpointExample | eibi2kiwi.py:44-45 | "Mo-Xx" fails on the unknown endpoint "Xx". |
| DayFields.ListPriorityExample | eibi2kiwi_online.py:231-236 | A comma makes "Mo,Tu-Th" a list, and "Tu-Th" then fails as an unknown day. |
| DayFields.RangeFailure | eibi2kiwi.py:146-147 | A range field that cannot be expanded fails the row with the expansion's error. |
| DayFields.ListFailure | eibi2kiwi.py:143 | A list field with a token outside `days` fails the row with that token. |
| Schedule.SplitTimes | eibi2kiwi.py:127 | The time field splits exactly when it has one hyphen, into two hyphen-free parts that rejoin to the field. Otherwise the unpack fails with the number of parts. |
| Schedule.SplitTimesJoin | eibi2kiwi.py:127 | Every "begin-end" with hyphen-free times splits back into those times. |
| Schedule.ClampBegin | eibi2kiwi.py:129-130 | A begin time of "0000" is written "0001", and any other time is kept. So the written begin is never "0000". |
| Schedule.ClampEnd | eibi2kiwi.py:131-132 | An end time of "2400" is written "2359", and any other time is kept. So the written end is never "2400". |
| Schedule.RowHead | eibi2kiwi.py:126-127 | Frequency and times convert exactly when the row has two fields, the frequency is a number and the times field has one hyphen. |
| Schedule.TypeTag | eibi2kiwi.py:157-161 | The tag is "T4" exactly when the stripped language is empty or starts with '-', and "T3" otherwise. |
| Schedule.LangOfWord | eibi2kiwi.py:162-165 | A language without surrounding blanks is noted as "Lang: " followed by the language. |
| Schedule.TargetOfWord | eibi2kiwi.py:166-170 | A target without surrounding blanks is noted as "Target: ", the target and a full stop. |
| Schedule.ParseRelay | eibi2kiwi_online.py:267-276 | A relay field without '/' is the site, and the row's country code stays. With '/', the site is a '-'-free segment of the field (its parts are pinned by `Schedule.RelayOfSite` and `Schedule.RelayWithoutHyphen`). |
| Schedule.RelayOfSite | eibi2kiwi_online.py:267-272 | For any country code of the row, "/CCC-s" gives country CCC and site s, and so does "/CCC-s" followed by further '-'-separated parts, which are dropped. |
| Schedule.RelayWithoutHyphen | eibi2kiwi_online.py:269-274 | With '/' but no '-', the country is the field minus its first character and the site is empty. |
| Schedule.LongName | eibi2kiwi_online.py:277 | The long name is found exactly when the table has the country and, under it, the site. |
| Schedule.NotesKeepInterior | eibi2kiwi.py:171-181 | Trimming the standalone notes removes nothing when the country code starts with a non-space and the language is not blank, so interior spaces survive. |
| Schedule.NotesLanguageOnly | eibi2kiwi.py:162-181 | With no remarks and no target, the notes are the country code, ". ", a second space and "Lang: " with the language, and trimming keeps the double space. |
| Schedule.NotesWithSite | eibi2kiwi_online.py:277-279 | With a long name, the notes read country code, long name, target note, language note. |
| Schedule.NotesExample | eibi2kiwi.py:173 | Country "D" and language "E" with no target give "D.  Lang: E". |
| Schedule.SiteNotesExample | eibi2kiwi_online.py:279 | A site named "Nauen" gives "D Nauen. Target: Eu. Lang: E". |
| Schedule.DowField | eibi2kiwi.py:151-154 | Empty letters are written empty. Any other letters are written between double quotes. |
| Schedule.ConvertRow | eibi2kiwi.py:125-192 | A row that converts is at least as wide as the fields the script reads: 8 fields for the standalone script, 11 for the online one. Only the online script drops a row. `Schedule.ConvertRowSpec`, `Schedule.RecordFields` and `Schedule.OneDayFilter` state the full conversion of both scripts (eibi2kiwi_online.py:217-302). |
| Schedule.ConvertRowSpec | eibi2kiwi_online.py:218-302 | A row converts exactly when it is wide enough and its head and day field convert. Only the online script drops a row, and only a one-day row. A kept row's record is built from that row's fields alone. |
| Schedule.ConvertRowSucceeds | eibi2kiwi.py:126-175 | In terms of the raw fields, a row converts exactly when it is wide enough, the frequency is a number, the times have one hyphen and the day field converts. |
| Schedule.RecordFields | eibi2kiwi.py:176-191 | Field by field, a record holds the frequency, the clamped times, the quoted day letters, the identifier, the tag and the trimmed notes. |
| Schedule.DowFieldShape | eibi2kiwi_online.py:244-247 | The written day field is empty exactly when no branch matches. Otherwise it is nine characters: quotes around seven letters or underscores. |
| Schedule.DayFieldShape | eibi2kiwi_online.py:226-247 | A record's day field depends only on that row's day field. |
| Schedule.OneDayFilter | eibi2kiwi_online.py:284-285 | A converted row is dropped exactly when the script is the online one, fields 9 and 10 are equal and field 9 is not empty. |
| Schedule.ConvertRowsSpec | eibi2kiwi.py:125-192 | A run succeeds exactly when every row converts, and otherwise fails at the first row that fails. |
| Schedule.Run | eibi2kiwi.py:122-124 | An empty file fails at the header read. `Schedule.StandaloneKeepsOrder` and `Schedule.OnlineSorted` state what a run of each script writes. |
| Schedule.ExtendRun | eibi2kiwi.py:176-191 | One more row extends the records so far by that row's record. A failing row makes the whole run fail with its error. |
| Schedule.PrefixFailure | eibi2kiwi.py:125-126 | Once a prefix of the rows fails, the whole run fails with the same error. |
| Schedule.KeepsOrder | eibi2kiwi.py:176-191 | With a converter that drops nothing, each row gives one record, in input order. |
| Schedule.StandaloneKeepsOrder | eibi2kiwi.py:122-192 | The standalone script writes one record per data row, in input order. |
| Schedule.OnlineSorted | eibi2kiwi_online.py:307 | The online output is the kept records, sorted ascending by frequency, as a permutation in which equal frequencies keep their input order. |
| Schedule.StandaloneRow | eibi2kiwi.py:133-192 | One pass of the loop body with `DOW` carried in. The variable is always empty afterwards. Starting empty, the pass is the row conversion. A row matching no branch writes the incoming value. |
| Schedule.StandaloneScript | eibi2kiwi.py:122-192 | The loop with `DOW` living across rows equals the row-by-row conversion, so no day field carries over. |
| FreqSort.SortByKeyCorrect | eibi2kiwi_online.py:307 | Sorting gives a sequence that is sorted by key, a permutation of the input, and keeps every group of equal keys in input order. |
| FreqSort.SortByKey | eibi2kiwi_online.py:307 | The sort keeps the number of records. `FreqSort.SortByKeyCorrect` proves it sorted, a permutation and stable, and `FreqSort.SortByKeyUnique` proves those three properties determine it. |
| FreqSort.SortByKeyUnique | eibi2kiwi_online.py:307 | Any sorted, stable permutation of the input equals the sort's result, so the three properties determine it. |
| FreqSort.StableSortUnique | eibi2kiwi_online.py:307 | Two sorted sequences of equal length whose groups of equal keys agree are equal. |
| FreqSort.InsertGroups | eibi2kiwi_online.py:307 | Inserting a record in front of equal keys puts it first in its group. |
| PercentEncoding.Utf8Char | eibi2kiwi_json.py:42 | Each character encodes as 1 to 4 bytes. ASCII encodes as its own single byte, and every byte of a longer encoding is 128 or above. |
| PercentEncoding.EncodeByte | eibi2kiwi_json.py:39-53 | The reference encoding writes a literal byte as itself and any other byte as '%' with two lower-case hex digits. |
| PercentEncoding.EncodeMatchesReference | eibi2kiwi_json.py:39-53 | `quote`, then the eight replacements, then the lower-casing of escapes, equals the per-byte reference encoding of the text's UTF-8 bytes. |
| PercentEncoding.EncodePreserveCase | eibi2kiwi_json.py:39-53 | `encode_preserve_case` has no contract of its own. `PercentEncoding.EncodeMatchesReference` proves it equal to the per-byte encoding of the text's UTF-8 bytes, and `PercentEncoding.RoundTrip` proves that percent-decoding its result gives those bytes. |
| PercentEncoding.PiecePipeline | eibi2kiwi_json.py:42-53 | Per byte: the quoted form, after the replacements and the lower-casing, is the reference form. |
| PercentEncoding.ReplacePieces | eibi2kiwi_json.py:43-50 | Replacing "%xy" in `quote`'s output replaces exactly the escapes of that byte and nothing else. |
| PercentEncoding.LowerPieces | eibi2kiwi_json.py:53 | The `re.sub` pass lower-cases the escapes and leaves the literal characters' case alone. |
| PercentEncoding.QuoteFlatten | eibi2kiwi_json.py:42 | `quote`'s output reads as a sequence of literals and escapes of two hex digits, with no literal '%'. |
| PercentEncoding.PercentEncode | eibi2kiwi_json.py:27-61 | The station name and the details are each the reference encoding of their UTF-8 bytes. |
| PercentEncoding.DecodeEncode | eibi2kiwi_json.py:39-53 | Percent-decoding inverts the reference encoding, so no two byte strings encode alike. |
| PercentEncoding.RoundTrip | eibi2kiwi_json.py:39-53 | Decoding the script's encoding of a text gives the text's UTF-8 bytes. |
| PercentEncoding.Examples | eibi2kiwi_json.py:43-53 | "A b" stays "A b", "R/F" becomes "R%2fF", and "(x):" stays "(x):". |
| KiwiJson.DayScheduleToInt | eibi2kiwi_json.py:64-84 | The result is absent exactly for the empty schedule, where `int("", 2)` raises. Otherwise it is below 2^len. |
| KiwiJson.ScheduleBit | eibi2kiwi_json.py:79-81 | Position i of the schedule is bit len − 1 − i of the result, set exactly when the character is not `_`. |
| KiwiJson.ScheduleInjective | eibi2kiwi_json.py:80 | Two schedules of one length give the same number exactly when their underscores stand at the same positions. |
| KiwiJson.LettersReadBack | eibi2kiwi_json.py:79-84 | For a 7-character 0/1 string, `day_schedule_to_int` of its letters equals its `binstring_to_decimal`. |
| KiwiJson.DayColumnReadBack | eibi2kiwi_json.py:117-118 | The quoted letters of a set of days unquote to the letters, which read as the number of the set's mask. |
| KiwiJson.ScheduleExamples | eibi2kiwi_json.py:64-84 | "M_WTF__" gives 92, "MTWTFSS" gives 127 and "_______" gives 0. |
| KiwiJson.Offset | eibi2kiwi_json.py:110 | An offset parses exactly when the column without apostrophes is an integer, and otherwise fails naming the column. |
| KiwiJson.ConvertRowSpec | eibi2kiwi_json.py:103-129 | A row converts exactly when its frequency parses, it has at least twelve columns and each nonblank time column is an integer. "T3" is always 1. "b0" and "e0" are present together exactly when a time column is filled, each taken from its own column or 0. "d0" is present exactly when column 9 is not blank. |
| KiwiJson.ConvertRowErrors | eibi2kiwi_json.py:103-116 | The first failure in the script's order wins. First comes the frequency. A row of fewer than four columns then fails at its first missing column, and one of four to ten columns at column 10. Next come column 10's number, column 11's presence and column 11's number. |
| KiwiJson.ConvertTimedRow | eibi2kiwi_json.py:103-118 | A row with both time columns filled converts to the entry with both offsets. |
| KiwiJson.ConvertRow | eibi2kiwi_json.py:103-129 | A row that converts has at least twelve columns. Its metadata has "T3" equal to 1, and "b0" and "e0" are either both present or both absent. `KiwiJson.ConvertRowSpec` and `KiwiJson.ConvertRowErrors` state the full conversion and the error order. |
| KiwiJson.NonEmpty | eibi2kiwi_json.py:102 | The kept rows are among the input rows, every one non-empty, and every non-empty input row is among them. |
| KiwiJson.NonEmptyAppend | eibi2kiwi_json.py:101-102 | Filtering a concatenation is the concatenation of the filtered parts, so kept rows keep their order and repetitions. |
| KiwiJson.NonEmptyOne | eibi2kiwi_json.py:102 | A single row is kept exactly when it is non-empty. |
| KiwiJson.ConvertAllSucceeds | eibi2kiwi_json.py:101-129 | The loop succeeds exactly when every row converts, and then yields one entry per row in input order. |
| KiwiJson.ConvertAllFails | eibi2kiwi_json.py:101-129 | A failing loop names the first row that does not convert, with that row's error. |
| KiwiJson.CsvToJsonSucceeds | eibi2kiwi_json.py:100-129 | With the header skipped, `csv_to_json` succeeds exactly when every later non-empty row converts, and then yields their entries in order. |
| KiwiJson.CsvToJsonFails | eibi2kiwi_json.py:100-129 | A failing `csv_to_json` stops at the first non-empty data row that does not convert. |
| KiwiJson.CsvToJson | eibi2kiwi_json.py:95-129 | The loop as written, header skip included. A file of at most one line gives no entries. |
| KiwiJson.FirstRecordLost | eibi2kiwi_json.py:100 | A one-line file as the CSV stages write it gives no entry, while the loop without the header skip gives that line's entry. |
| KiwiJson.HeaderlessSucceeds | eibi2kiwi_json.py:101-129 | Without the header skip, every non-empty line is converted, in order. |
| KiwiJson.CsvToJsonHeaderless | eibi2kiwi_json.py:101-129 | The same loop without the header skip. It has no contract of its own: `KiwiJson.HeaderlessSucceeds`, `KiwiJson.HeaderlessAll` and `Pipeline.WrittenFile` state what it computes. |
| KiwiJson.HeaderlessAll | eibi2kiwi_json.py:101-129 | Lines that all have content and convert to given entries give exactly those entries, in order. |
| KiwiJson.ReadWritten | eibi2kiwi.py:194-196 | A line of plain columns joined with ';' reads back as the unquoted columns. |
| KiwiJson.TimeColumn | eibi2kiwi_json.py:109-116 | A four-digit time column is not blank and parses as its number. |
| Pipeline.DayFieldToD0 | eibi2kiwi_json.py:117-118 | The written day letters of a field, read back, give the number `binstring_to_decimal` gives for the field's bit string. |
| Pipeline.ReadColumns | eibi2kiwi_online.py:287-302 | The twelve columns of a record with clean text survive the line format. |
| Pipeline.WrittenLine | eibi2kiwi_json.py:103-129 | A written line reads back as a row that the JSON stage converts into the record's entry: the frequency, "QAM", the encoded identifier and notes, both offsets, and "d0" exactly when the record has day letters. |
| Pipeline.WrittenFile | eibi2kiwi_json.py:101-129 | A whole written file, read without the header skip, converts into one entry per record, in order. |
| Numerals.ParseShowInt | eibi2kiwi_json.py:110 | `int` reads back every integer's decimal rendering. |
| Numerals.ParseDecimalWhole | eibi2kiwi_json.py:103 | `float` reads a whole number written in digits as that number. |
| Binary.ValueInjective | eibi2kiwi.py:99-103 | Bit sequences of equal length with equal values are equal. |
| Binary.BitAt | eibi2kiwi.py:101-102 | Bit i from the front of an n-bit sequence is bit n − 1 − i of its value. |
| Text.SplitJoin | eibi2kiwi.py:59-75 | Splitting a join of separator-free parts gives the parts back. |

## Findings

| source | as written | input that shows it | evidently intended | confidence | as-written member | corrected member |
|---|---|---|---|---|---|---|
| eibi2kiwi_json.py:100 | `csv_to_json` skips the first line as a header, but the CSV stages write `kiwi.csv` without one (eibi2kiwi.py:194-196, eibi2kiwi_online.py:309-311) | a `kiwi.csv` of one converting line gives no entries | every written line becomes an entry | medium, not executed | KiwiJson.FirstRecordLost | Pipeline.WrittenFile |

`KiwiJson.CsvToJson` is the loop as written, header skip included. `KiwiJson.CsvToJsonHeaderless` is the same loop without the skip. The end-to-end lemmas of `Pipeline` are stated about `KiwiJson.CsvToJsonHeaderless`.

## Left out

- HTTP download, retry loop and CRLF rewrite of the online script: network I/O.
- Season and file-name computation and `last_sunday`: they depend on today's date.
- Reading `eibisites.csv`: file I/O. The site table is a `map<string, map<string, string>>` parameter of the online conversion.
- Opening, reading and writing files; `json.dump` and the hand-written JSON wrapper lines. The model reads a line whose fields hold no `;` and no interior `"` (`KiwiJson.ReadLine`). The `csv` module's quoting rules beyond such lines are not modelled.
- `str(khz)` of a float: the frequency column is a `freq` text parameter.
- Floating point: `float()` reads plain decimal notation as an exact rational. Exponents, `inf`, `nan` and underscores are not modelled, and neither is `round(…, 2)`. The sort compares these exact values.
- `int()` accepts an optional sign and ASCII digits. Underscores are not modelled.
- Unicode: `isspace`, `isdigit` and `strip` are modelled on their ASCII cases. `quote` is modelled on UTF-8 bytes. It is not modelled on surrogate code points, on which Python raises.
- `print` progress messages of the online script.
- DayCodec.BinstringToDecimal: Python returns either an `int` or the original string. The model returns a two-case datatype.
- KiwiJson.ConvertRow: the frequency is kept exact and not rounded to two decimals.
