# GW2 gem store wiki parser, in Dafny

This project models the parsing core of the GW2-Gemstore-Notifier script
`get_wiki_data.py`. Three pieces are modelled:

- `process_page_data` takes the raw markup of the wiki page `Gem_Store/data`
  and returns a list of seven-slot records: item, availability, cost, qty,
  discounted, section and subsection.
- `find_sale_items` keeps the records whose `discounted` slot is exactly `"y"`.
- Their composition, `find_sale_items(process_page_data(data))`, as done in
  `get_sales_from_wiki`.

The model works on strings as `seq<char>`. It rebuilds the few Python string
operations the code depends on, each with its own contract:

- `str.split(sep)` is `Strings.Split`. It cuts at leftmost non-overlapping
  occurrences and keeps empty pieces.
- `str.split(sep, 1)` is `Strings.SplitOnce`.
- `str.startswith` is `Strings.StartsWith`.
- `str.replace(old, "")` is `Strings.RemoveAll`.

Layout:

- `wrappers.dfy`: the `Option` and `Result` types.
- `strings.dfy`: the string primitives and their lemmas.
- `seqs.dfy`: the order-preserving `Filter` and its lemmas.
- `wiki_data.dfy`: the record, the per-line parser, the page parser, the sale
  filter and their composition.
- `wiki_data_properties.dfy`: the properties relating these functions.
- `wiki_data_examples.dfy`: worked pages, stated over arbitrary item names and
  values.

A record is the datatype `Entry`. `Slots` gives it in the source's list layout:
seven strings, with `discounted` at index 4. Every field is kept as an opaque
string, exactly as the source does.

A parameter line that has no `" = "` makes `split_item[1]` raise `IndexError`,
which aborts the whole call. The model gives that result as
`Failure(MissingKeySeparator(line))`, naming the first such line.

Three behaviours of `get_wiki_data.py` that the model keeps:

- A parameter line without `" = "` fails the whole page; no record is
  returned for any entry (`MissingSeparatorFailsThePage`).
- The value of the last line of a template keeps the template's closing text.
  For example, `discounted = y\n}}` stores `"y\n}}"`, which is not `"y"`, so
  that item is not on sale (`TrailingCloseStaysInValue`).
- The subsection cleanup does not guarantee that `[[` and `]]` are gone.
  Removing a newline can bring two brackets together: `"[\n["` cleans to
  `"[["` (`BracketsCanReform`). Only the absence of newlines and of `}}` is
  proved.

## Model

| member | source | states |
|---|---|---|
| Strings.Find | get_wiki_data.py:49 | the search behind `split`: the result is an occurrence at or after `from`, with no occurrence between `from` and it; `None` means there is no occurrence at or after `from` |
| Strings.Split | get_wiki_data.py:36 | `str.split`: at least one piece, the pieces joined with `sep` give back the input, and no piece contains `sep` |
| Strings.SplitOfJoin | get_wiki_data.py:43 | splitting undoes joining when each piece ends just before the leftmost separator after it and the last piece has none |
| Strings.SplitAfterHead | get_wiki_data.py:43 | when the first occurrence of `sep` follows `h` directly, the split of `h + sep + rest` is `h` followed by the split of `rest` |
| Strings.SplitOnce | get_wiki_data.py:49 | `str.split(sep, 1)`: two parts exactly when `sep` occurs; then they surround its leftmost occurrence; otherwise the one part is the whole line |
| Strings.SplitOnceIsSplitHead | get_wiki_data.py:49 | splitting once gives the first piece of the full split, and the rest of the line after it |
| Strings.SplitOnceOfJoin | get_wiki_data.py:49-51 | when the first `sep` of `key + sep + value` follows `key`, the split-once parts are `key` and `value`, even if `value` contains `sep` |
| Strings.RemoveAll | get_wiki_data.py:66 | `str.replace(old, "")` scans left to right and never lengthens the text |
| Strings.RemoveAllIsJoinSplit | get_wiki_data.py:66-69 | removing every occurrence is the same as splitting on the pattern and concatenating the pieces |
| Strings.RemoveAllCharIsGone | get_wiki_data.py:68 | after removing a one-character pattern, that character does not occur |
| Strings.RemoveAllKeepsAbsent | get_wiki_data.py:69 | a character missing from the input is missing from the output |
| Strings.RemoveAllPairIsGone | get_wiki_data.py:69 | after removing `cc`, no two adjacent characters are both `c` |
| Strings.NoPairIsNotContains | get_wiki_data.py:69 | text with no two adjacent `c` does not contain `cc` |
| Strings.RemoveAllKeepsCleanPrefix | get_wiki_data.py:66-69 | a prefix free of the pattern's first character passes through a removal unchanged |
| Seqs.Filter | get_wiki_data.py:77-83 | the kept elements all satisfy the test, and there are no more of them than inputs |
| Seqs.FilterConcat | get_wiki_data.py:79-81 | filtering a concatenation is the concatenation of the filtered parts, so order is kept |
| Seqs.FilterCounts | get_wiki_data.py:79-81 | each element occurs as often in the output as in the input when it passes the test, and never otherwise |
| Seqs.FilterIdempotent | get_wiki_data.py:77-83 | filtering twice is filtering once |
| WikiData.Slot | get_wiki_data.py:47 | every key selects one of the seven list slots |
| WikiData.Slots | get_wiki_data.py:47 | a record is seven strings, and slot `Slot(k)` holds key `k`'s field |
| WikiData.Set | get_wiki_data.py:54-70 | writing a slot changes that slot to the value and leaves the other six unchanged |
| WikiData.ParseKey | get_wiki_data.py:53-65 | the if/elif chain: a recognised name selects the key with that name; an unrecognised one selects nothing, and no key has that name |
| WikiData.CleanSubsection | get_wiki_data.py:65-70 | the four removals leave no newline and no `}}` |
| WikiData.Assign | get_wiki_data.py:53-70 | one line writes the slot whose key name equals the line's name, cleaning the value for `subsection`; every other slot keeps its value; an unrecognised name changes nothing |
| WikiData.KeyOf | get_wiki_data.py:49-50 | the key of a line contains no `" = "`, and is the whole line when the line has none |
| WikiData.ValueOf | get_wiki_data.py:49-51 | for a line holding `" = "`, the line is its key, then `" = "`, then the value |
| WikiData.ParseFields | get_wiki_data.py:48-70 | the per-line loop succeeds exactly when every line holds `" = "`; otherwise it fails with the first line that does not |
| WikiData.FieldLines | get_wiki_data.py:43-44 | the parameter lines of a block contain no `"\n| "`, and a block without one has no parameter lines |
| WikiData.ParseBlock | get_wiki_data.py:43-72 | one entry piece parses exactly when each of its parameter lines holds `" = "`; a failure names one of its parameter lines that lacks it |
| WikiData.ParsePieces | get_wiki_data.py:39-72 | the outer loop yields at most one record per piece |
| WikiData.ParsePiecesIsParseEachOfEntries | get_wiki_data.py:39-72 | the outer loop is parsing, one by one, exactly the pieces that start with `Gem store entry` |
| WikiData.ProcessPageData | get_wiki_data.py:34-74 | a page parses exactly when every parameter line of every entry piece holds `" = "`; then there is one record per entry piece, in page order, each that piece's record |
| WikiData.ParseEachRecords | get_wiki_data.py:39-74 | reading blocks one by one succeeds exactly when every block parses, and then gives one record per block, at the block's position |
| WikiData.FindSaleItems | get_wiki_data.py:77-83 | every record kept has `discounted` exactly `"y"`; each such record is kept as often as it occurs; no other record is kept |
| WikiData.GetSales | get_wiki_data.py:89-90 | the composition fails exactly when page parsing fails; on success it holds exactly the parsed records that are on sale, each as often as it was parsed |
| WikiDataProperties.SlotsAreDistinct | get_wiki_data.py:47 | different keys use different slots |
| WikiDataProperties.DefaultSlots | get_wiki_data.py:47 | the default record is `["UNKNOWN", "UNKNOWN", "0", "1", "n", "UNKNOWN", "UNKNOWN"]` |
| WikiDataProperties.LastIndexOf | get_wiki_data.py:53-70 | reference search: the index of the last line with a given name, with no later line of that name; `None` when no line has it |
| WikiDataProperties.ParseFieldsLastWriteWins | get_wiki_data.py:48-70 | on well-formed lines, each slot holds the stored value of the last line naming its key, or its previous value when no line does |
| WikiDataProperties.ParseBlockLastWriteWins | get_wiki_data.py:43-70 | a block's record has in each slot the value of the last line naming that key, or the default |
| WikiDataProperties.UnnamedSlotKeepsDefault | get_wiki_data.py:47-70 | a slot whose key no line names keeps its default |
| WikiDataProperties.ParseFieldsConcat | get_wiki_data.py:48-70 | reading `xs + ys` is reading `xs`, then reading `ys` from the result |
| WikiDataProperties.UnrecognisedLineIsIgnored | get_wiki_data.py:53-70 | a well-formed line with an unrecognised name can be removed without changing the result |
| WikiDataProperties.HeaderIsIgnored | get_wiki_data.py:43-44 | the text before the first `"\n| "` never reaches the record |
| WikiDataProperties.HeaderOnlyBlockIsDefault | get_wiki_data.py:43-47 | an entry with no parameter lines gives the default record |
| WikiDataProperties.FieldLinesOfJoin | get_wiki_data.py:43-44 | the parameter lines of a block built from a header and lines without `"\n| "` are exactly those lines |
| WikiDataProperties.ValueKeepsLaterSeparators | get_wiki_data.py:49-51 | only the first `" = "` separates name from value; the value keeps any later `" = "` |
| WikiDataProperties.ParseLine | get_wiki_data.py:49-70 | reading `name = value` applies `value` to the slot `name` selects and continues with the next line |
| WikiDataProperties.EntryBlocksAreTheEntryPieces | get_wiki_data.py:36-41 | the pieces that become records are the `{{`-pieces starting with `Gem store entry`, each as often as it occurs |
| WikiDataProperties.OtherPieceContributesNothing | get_wiki_data.py:39-41 | a piece that is not a gem store entry can be removed without changing the result |
| WikiDataProperties.CleanSubsectionKeepsPlainText | get_wiki_data.py:65-70 | a subsection value with none of the four patterns is stored unchanged |
| WikiDataProperties.FindSaleItemsKeepsOrder | get_wiki_data.py:79-81 | the sale filter distributes over concatenation, and a single record is kept exactly when its `discounted` is `"y"` |
| WikiDataProperties.GetSalesKeepsPageOrder | get_wiki_data.py:89-90 | when the parsed records are `xs + ys`, the sales are the sales of `xs` followed by those of `ys`, so page order is kept |
| WikiDataProperties.FindSaleItemsIdempotent | get_wiki_data.py:77-83 | applying the sale filter twice equals applying it once |
| WikiDataExamples.SinglePiecePage | get_wiki_data.py:36-41 | a page `"{{" + piece` without other braces parses as that one piece |
| WikiDataExamples.OneEntryPage | get_wiki_data.py:34-74 | a one-entry page's result is its lines read from the default record |
| WikiDataExamples.SingleEntryPage | get_wiki_data.py:39-72 | a page holding one entry template has that template's record alone |
| WikiDataExamples.SalesOfOne | get_wiki_data.py:89-90 | with one parsed record, the sales are that record when it is on sale and nothing otherwise |
| WikiDataExamples.TrailingCloseStaysInValue | get_wiki_data.py:47-83 | for `{{Gem store entry\n| item = I\n| cost = C\n| discounted = y\n}}`, the record stores `"y\n}}"` as `discounted`, and no sale is reported |
| WikiDataExamples.SubsectionLinkIsUnwrapped | get_wiki_data.py:65-70 | `"[[name]]\n}}"` is cleaned to `name` |
| WikiDataExamples.BracketsCanReform | get_wiki_data.py:66-69 | `"[\n["` is cleaned to `"[["`: the brackets can re-form |
| WikiDataExamples.SaleFlagBeforeSubsection | get_wiki_data.py:47-83 | with `discounted = y` followed by `subsection = [[S]]\n}}`, the record has `discounted` `"y"` and subsection `S`, and is reported on sale |
| WikiDataExamples.MissingSeparatorFailsThePage | get_wiki_data.py:49-51 | a line free of `|` and `{` that lacks `" = "`, as the only parameter line of an entry, makes the page, and the sales, fail with that line |

## Left out

- `get_current_gemstore` (get_wiki_data.py:22-31) is an HTTP request through `requests`, with JSON decoding and a timeout. It is network I/O, so the page text is a parameter of `ProcessPageData` and `GetSales` instead.
- `get_sales_from_wiki` (get_wiki_data.py:86-91) and the `__main__` block (get_wiki_data.py:94-104) fetch and print. Only their pure step, `find_sale_items(process_page_data(data))`, is modelled, as `GetSales`. The timestamp is passed through untouched and is not modelled.
- `notifier.py` is not part of this model. Its functions are empty stubs, and it imports a module `getdata` that is not present.
- `cost`, `qty` and `discounted` are never converted to numbers or booleans by the source, and the model keeps them as strings.
- Strings.Split: requires a non-empty separator. Python raises `ValueError` on an empty one, but the source only splits on the non-empty constants `"{{"`, `"\n| "` and `" = "`.
- Strings.SplitOnce: requires a non-empty separator, like `Split`; the source only splits once on `" = "`.
- Strings.RemoveAll: requires a non-empty pattern; the source only removes the four non-empty constants `"[["`, `"]]"`, `"\n"` and `"}}"`.
- WikiData.ParsePieces: its own contract only bounds the number of records. Its full meaning is stated by `ParsePiecesIsParseEachOfEntries` and `ProcessPageData`.
- WikiDataExamples.OneEntryPage: covers only lines without `|` and `{`, so that the page splits exactly at the places the lines were joined.
