# Bankrupt-registry lookup: a Dafny model

The script reads a list of people from a target file. Each line holds `username||birthday`. It searches the
Russian bankruptcy registry (bankrot.fedresurs.ru) for each username, opens the detail page behind the
first result card, and checks whether that page's "дата рождения" (date of birth) field carries the given
birthday. It collects one outcome per person — found or not, plus the link to the detail page — and
prints a bordered report.

This project models the parts of that flow that do not talk to the browser:

- `records.dfy` — the values exchanged: an input record (`username`, `birthday`), an outcome (`found`, `username`,
  `birthday`, `link`) and `Option`.
- `pystr.dfy` — the Python string operations these parts rely on: `str.strip` (with Python's
  whitespace set, or with a given character), `str.split` on a multi-character separator (non-overlapping,
  left to right) with its inverse `join`, and `str.lower` for ASCII and the Cyrillic capitals U+0400–U+042F.
- `storage.dfy` — the result collector `Storage` as a class: append-only, insertion-ordered, with the
  guarded indexed read exactly as written, the full listing, and the report that `print_items` prints, returned as a string.
- `loader.dfy` — the line loop of `get_target_data`. A line has its leading and trailing newlines stripped and is
  split on `||`. It is kept only when there are exactly two fields.
- `parser.dfy` — `BankruptParser`: the field check of a detail page (`_data_is_valid`), the card check,
  the verdict of `_check_user`, and the `__run` loop that adds one outcome per record to the collector.
  The browser is replaced by what it observes. A `Registry` maps a searched username to the detail page
  behind each result card, in card order. A detail page is its list of (label, value) items and its URL.

## Model

| member | source | states |
|---|---|---|
| Storage.Storage.constructor | storage.py:2-4 | a new collector is empty and its `_index` marker is 0 |
| Storage.Storage.Add | storage.py:6-7 | the record is appended: the length grows by one, the record is last, and earlier records are unchanged |
| Storage.DuplicateKept | storage.py:6-7 | no deduplication: the same record added twice is stored twice |
| Storage.AddThenGetAll | storage.py:6-14 | records added one by one to a fresh collector are listed back in the order added, and the indexed read of index 0 on it returns nothing |
| Storage.Storage.GetAll | storage.py:13-14 | the listing is the stored sequence |
| Storage.Storage.GetByIndex | storage.py:9-11 | the read follows the guard `_index > 0 and index < len - 1`; on every reachable collector (marker 0) it returns nothing |
| Storage.GuardedLookup | storage.py:10-11 | an item comes back exactly when the marker is positive and the index is below `len - 1`, and then it is the stored item |
| Storage.LookupMissesEveryIndex | storage.py:4-11 | with the marker at 0 no index yields an item |
| Storage.LookupMissesLastIndex | storage.py:10 | whatever the marker, index `len - 1` is rejected |
| Storage.LookupMissesStoredRecord | storage.py:10 | a one-record store read at index 0, which holds that record, returns nothing |
| Storage.ItemAt | storage.py:9-11 | corrected read: an item exactly when the index is in bounds, and it is the stored one |
| Storage.ItemAtReturnsEveryRecord | storage.py:9-11 | the corrected read returns every stored record, including the last, and agrees with the guarded read wherever that returns one |
| Storage.LinkShown | storage.py:21-22 | no contract of its own: Python truthiness of the link (present and non-empty); `MessageLink` states its effect |
| Storage.Headline | storage.py:19-20 | no contract of its own: the "Пользователь" line with the found or not-found phrase; `FoundBlockExample` shows it rendered |
| Storage.Message | storage.py:20-23 | no contract of its own: the headline, then the link paragraph when shown; `MessageLink` states both cases |
| Storage.Block | storage.py:25 | no contract of its own: the bordered message and the trailing blank line; `MessageLink` and `FoundBlockExample` state its shape |
| Storage.Report | storage.py:17-25 | no contract of its own: the blocks of the store written one after another; `PrintItems`, `ReportAppend`, `ReportSnoc` and `ReportBlocks` state its properties |
| Storage.Storage.PrintItems | storage.py:16-25 | the output is the report of the store: one block per record, in store order |
| Storage.Blocks | storage.py:18-25 | one block per record, block `k` rendering record `k` |
| Storage.ReportAppend | storage.py:18-25 | the report of two stores in sequence is their two reports concatenated |
| Storage.ReportSnoc | storage.py:18-25 | adding a record adds its block at the end of the report |
| Storage.ReportBlocks | storage.py:18-25 | record `k`'s block stands right after the blocks of the records before it |
| Storage.MessageLink | storage.py:21-25 | the link is printed as the message's last paragraph exactly when it is present and non-empty; a block without a shown link is border, headline, border, blank line, and one with a shown link is border, headline, blank line, link, border, blank line |
| Storage.FoundBlockExample | storage.py:17-25 | a found record with a link renders as 20 `#`, "Пользователь X Y нашелся", a blank line, the link, 20 `#`, and a blank line |
| PyStr.Strip | main.py:17 | no contract of its own: `strip(chars)` as left strip then right strip; `StripEnds`, `StripUnchanged` and `StripRightSuffix` state its properties |
| PyStr.StripLeft | main.py:17 | the result is a suffix of the input; every dropped character is strippable; the result does not start with one |
| PyStr.StripRight | main.py:17 | the result is a prefix of the input; every dropped character is strippable; the result does not end with one |
| PyStr.IsSpace | parser.py:114 | no contract of its own: the characters for which Python's `str.isspace()` holds, which `title.strip()` removes; `LabelNormalised` and `LabelAlreadyNormal` use it |
| PyStr.StripEnds | parser.py:114 | the result of `strip` neither starts nor ends with a strippable character |
| PyStr.StripUnchanged | parser.py:114 | a string whose ends are not strippable is its own strip |
| PyStr.StripRightSuffix | main.py:17 | strippable characters appended at the end are removed again |
| PyStr.Find | main.py:17 | the leftmost occurrence of the separator at or after the start position, or -1 when there is none |
| PyStr.Split | main.py:17 | at least one field |
| PyStr.Join | main.py:17 | no contract of its own: `sep.join(fields)`, the inverse that `JoinSplit` proves for `Split` |
| PyStr.JoinSplit | main.py:17 | joining the fields of a split with the separator gives back the original string |
| PyStr.SplitFieldsFree | main.py:17 | no field of a split contains the separator |
| PyStr.SplitNoSeparator | main.py:17 | a string without the separator splits into itself alone |
| PyStr.SplitCons | main.py:17 | splitting at the first occurrence gives the prefix followed by the split of the rest |
| PyStr.SplitTwo | main.py:17 | a string with exactly one occurrence, the first, splits into the two parts around it |
| PyStr.LowerChar | parser.py:114 | the result is never upper case; a character that is not upper case is unchanged |
| PyStr.Lower | parser.py:114 | same length, lowered character by character |
| PyStr.LowerNormalForm | parser.py:114 | a lowered string has no upper-case character, and a string without one is its own lower form |
| InputLoader.GetTargetData | main.py:14-24 | the parsed records are the lines' records in line order, dropping lines that are not two fields; there are at most as many records as lines |
| InputLoader.ParsedLines | main.py:14-18 | at most as many records as lines |
| InputLoader.ParsedLinesAppend | main.py:15-18 | parsing concatenated line lists gives the concatenated records: line order is kept |
| InputLoader.ParsedLinesFromLines | main.py:15-18 | every parsed record comes from some input line |
| InputLoader.MiddleLineDropped | main.py:15-20 | a malformed line between two good lines is dropped and the two records keep their order |
| InputLoader.MalformedLineSkipped | main.py:15-20 | the lines a-delimiter-b, `malformed-line`, c-delimiter-d give the two records (a, b) and (c, d) |
| InputLoader.StripNewlines | main.py:17 | no contract of its own: `strip("\n")`; `StripTrailingNewlines`, `CarriageReturnKept` and `LeadingSpaceKept` state what it removes and keeps |
| InputLoader.StripTrailingNewlines | main.py:17 | a trailing run of newlines is removed from a core that neither starts nor ends with one, and nothing else is |
| InputLoader.ParseLine | main.py:17-20 | no contract of its own: a record exactly when the stripped line splits into two fields; `ParseLineRoundTrip`, `ParseLineInverse`, `LineWithoutDelimiterDropped` and `MoreFieldsDropped` state both directions |
| InputLoader.ParseLineRoundTrip | main.py:17-18 | a username with no bar character that does not start with a newline, and a birthday without the two-bar delimiter that does not end with a newline, joined by the delimiter and followed by any run of newlines, parse back to exactly that record |
| InputLoader.ParseLineInverse | main.py:17-18 | a parsed line, once stripped of newlines, is its two fields joined by the two-bar delimiter, and neither field contains the delimiter |
| InputLoader.LineWithoutDelimiterDropped | main.py:17-20 | a line without the two-bar delimiter yields no record |
| InputLoader.MoreFieldsDropped | main.py:17-20 | a line with two delimiters, which splits into three or more fields, yields no record, with or without trailing newlines |
| InputLoader.ExtraFieldsDropped | main.py:17-20 | a line of three fields, and a line with two delimiters in a row, yield no record |
| InputLoader.CarriageReturnKept | main.py:17 | only newlines are stripped: a carriage return before the final newline stays in the birthday |
| InputLoader.LeadingSpaceKept | main.py:17 | spaces are not stripped: a leading space stays in the username |
| Parser.BankruptParser.constructor | parser.py:9-12 | the parser keeps the given collector, the search URL and the profile directory |
| Parser.Normalize | parser.py:114 | no contract of its own: `title.strip().lower()`; `LabelNormalised`, `LabelAlreadyNormal` and `UppercaseTargetNeverMatches` state its effect |
| Parser.ItemMatches | parser.py:113-116 | no contract of its own: a non-empty label normalising to the target and a verbatim value; `UnlabelledItemIgnored` and `PaddedValueRejected` state its edge cases |
| Parser.HasMatchingItem | parser.py:112-119 | no contract of its own: some item matches; `DataIsValid` is proved equal to it and `NoItemsNoMatch` states the empty case |
| Parser.GetUserCard | parser.py:121-134 | no contract of its own: the outcome record from its arguments, `link` defaulting to none; `CardVerdict` and `Verdict` state the fields it keeps |
| Parser.RecordsOf | parser.py:45-51 | no contract of its own: one record for a single dictionary, the list itself for a list; `Run` states that one outcome is added per record |
| Parser.BankruptParser.DataIsValid | parser.py:108-119 | true exactly when some item has a non-empty label whose stripped, lowercased form is the target field and whose value is exactly the control string |
| Parser.NoItemsNoMatch | parser.py:112-119 | an empty item list never matches |
| Parser.UnlabelledItemIgnored | parser.py:113-114 | an item with a missing or empty label is skipped: putting it in front changes nothing |
| Parser.PaddedValueRejected | parser.py:115-116 | values are compared verbatim: a leading or trailing space makes a mismatch |
| Parser.UppercaseTargetNeverMatches | parser.py:114 | a target field with an upper-case letter can never be matched |
| Parser.LabelNormalised | parser.py:114 | the label " Дата рождения\n" matches the birthday field |
| Parser.LabelAlreadyNormal | parser.py:114 | the target label "дата рождения" is its own stripped, lowercased form |
| Parser.CardVerdict | parser.py:90-106 | the card check keeps the username and birthday, is found exactly when the detail page carries the birthday, and links the tab's URL whatever the verdict |
| Parser.BankruptParser.CheckCard | parser.py:90-106 | returns the card verdict of the detail page |
| Parser.Verdict | parser.py:75-88 | found exactly when there is a card and the first card's page carries the birthday; then the link is that page's URL, otherwise there is no link; username and birthday are kept |
| Parser.BankruptParser.CheckUser | parser.py:59-88 | returns the verdict for the cards the search shows |
| Parser.ZeroCards | parser.py:79-80 | no cards: not found, no link |
| Parser.FirstCardOnly | parser.py:82-88 | cards after the first do not change the outcome |
| Parser.SecondCardIgnored | parser.py:82-87 | a missing first card and a matching second card give not found; the other order gives found with the matching card's link |
| Parser.MissDropsCardLink | parser.py:83-87 | on a miss the card check produced a link, but the outcome has none |
| Parser.OneMatchingCard | parser.py:77-85 | one card whose page carries the birthday: found, linked to that page |
| Parser.OneMismatchingCard | parser.py:77-87 | one card whose page carries another birthday: not found, no link |
| Parser.Verdicts | parser.py:45-57 | one outcome per record, outcome `k` the verdict for record `k` |
| Parser.BankruptParser.Run | parser.py:41-57 | the collector gains exactly the outcomes of the records, one per record, in record order, after what it held before; its marker is untouched |
| Parser.VerdictsFollowRecords | parser.py:45-57 | every outcome answers its own record, in record order, and a not-found outcome carries no link |
| Parser.VerdictsAppend | parser.py:50-57 | the outcomes of two batches run one after the other are the two outcome lists concatenated |

## Left out

- The browser work is not modelled: launching the persistent Chromium context, opening pages, filling the search box, the fixed 2000 ms wait, clicking a card and waiting for the new tab. The registry function stands for everything the browser observes. `start` is therefore only its `__run` part.
- Browser failures are not modelled. In the source, a detail page without a visible `.info-item`, a new tab that does not open, or a label or value locator that finds no element raises. That aborts the whole run, so no report is printed. The model assumes every browser step succeeds. An empty item list stands for a page with no matching item, not for a page without any info item, and a `None` title stands for `text_content()` returning `None`.
- The card count and the list of cards are one observation (the length of the registry's list). The source reads them with two separate browser calls, which a changing page could make disagree.
- `async`/`await` is not modelled. The flow is sequential.
- Logging is not modelled.
- Opening and reading the target file (`os.path.exists`, `readlines`) is not modelled, nor the `None` result when the file is missing, nor `main`/`asyncio.run`. `GetTargetData` takes the file's lines as given. The file is read in text mode, which translates `\r\n` and a lone `\r` to `\n` and splits lines there, so no line reaching the parse holds a `\r`. `InputLoader.CarriageReturnKept` describes `strip("\n")` on strings the program never produces.
- `print` is not modelled: `PrintItems` returns the text it would write. `print` adds nothing between blocks beyond the `end="\n\n"` that the model includes.
- Parser.BankruptParser.CheckUser: the source's `for` loop returns in its first iteration on both branches, so the model inspects the first card directly. The return after the loop can never be reached.
- PyStr.Lower: only ASCII and the basic Cyrillic capitals U+0400–U+042F are lowered. Python's full Unicode case mapping is not modelled.
- PyStr.IsSpace covers Python's whitespace set. Unicode data beyond that list is not consulted.
- Storage.GuardedLookup: Python's negative indexing is not modelled. The guard is taken to hold only for `0 <= index`. No reachable call gets that far, since the marker is always 0.
- Storage.Storage.GetAll returns the stored sequence as a value. The source returns the list object itself, so a caller that mutates it would change the collector. Aliasing is not modelled.
- `_get_user_card` is folded into `CardVerdict` and `Verdict` (as `Parser.GetUserCard`). It only builds the record from its arguments, and `link` defaults to none.

## Findings

| source | as written | input that shows it | evidently intended | confidence | as-written member | corrected member |
|---|---|---|---|---|---|---|
| storage.py:10 | `self._index > 0 and index < len(self._store) - 1`: `_index` is 0 forever, and the bound also excludes the last item | a collector holding one record, read at index 0 | return the stored item whenever the index is in bounds | not executed | Storage.LookupMissesStoredRecord | Storage.ItemAtReturnsEveryRecord |
