# Price monitor for 王鼎貴金屬 (wdpm.com.tw), modelled in Dafny

`scraper.py` runs one cycle of a price watcher. It downloads the price page,
turns the rows under its first `table-responsive` container into a dict from item name to a
formatted price string, and compares that dict with the one saved in
`last_price.json` by the previous run. An empty dict ends the run with nothing
sent and nothing written. When the new dict is non-empty and differs from the
saved one, it overwrites the snapshot and, if a webhook is set, posts a
Discord message listing every item, with the changed ones marked ` <--`.
This project models that decision logic and proves what it does.

- `Strings`: Python's substring test `sub in s` (`Contains`), characterised by substring occurrence.
- `PriceTable`: the insertion-ordered Python dict, written as a key order plus a `map`, and dict assignment (`Put`).
- `Extractor`: `fetch_prices`. It covers the row classification (`Classify`, the kinds `Item`, `Header`, `NewYorkClose` and `NotData`), the value format `賣出:{sell} / 買入:{buy}`, and the extraction loop (`FetchPrices`, a method with a loop). `FetchPrices` is proved equal to the specification function `ExtractTable`, and lemmas prove what that function yields: which keys, in which order, and which values.
- `Notifier`: the change report and the message `main` accumulates with `+=` (`RenderMessage`, a method with a loop proved equal to `Render(ChangeReport(...))`).
- `Monitor`: `main`. A `Monitor` object holds the snapshot file (`stored`, `None` while the file does not exist) and the messages posted to the webhook (`posted`). `Run` is one invocation. `Decide` and `Persisted` are the pure decision it follows, and lemmas prove the write gate, idempotence and first-run behaviour.

Inputs that the real program gets from the outside are parameters here. A
page is `None` when it has no `div.table-responsive`. Otherwise it is given
as its rows, each row the stripped text of its `td` cells. Whether
`DISCORD_WEBHOOK` is set is the constant `webhookSet`.

The program has no first-run flag: a missing snapshot means `old_prices = {}`.
A corrupt snapshot is not handled (`json.load` raises), and no request timeout
is set. Rows are read only under the first `div.table-responsive` of the page
(`soup.find` returns the first match). The only filters are the cell count and
the substrings `出/`, `入/` and `紐約收盤`.

## Model

| member | source | states |
|---|---|---|
| Strings.ContainsIffOccurs | scraper.py:35 | `sub in s` is true exactly when `sub` occurs at some index of `s` |
| Strings.MissingFirstChar | scraper.py:45 | a text lacking the first character of `sub` does not contain `sub` |
| PriceTable.Put | scraper.py:39 | dict assignment keeps keys unique and listed once; an existing key keeps its position with the new value, a new key is appended |
| PriceTable.EmptyIffNoKeys | scraper.py:59 | a dict is empty (`not new_prices`) exactly when it has no keys in its order |
| Extractor.ClassifySpec | scraper.py:29-46 | a 3-cell row is a product iff "出/" is not in its sell cell and "入/" is not in its buy cell, with value exactly `賣出:` + sell + ` / 買入:` + buy; a 2-cell row is a product iff its name does not contain "紐約收盤", with value its second cell; any other cell count contributes nothing |
| Extractor.ExtractRows | scraper.py:26-46 | the dict built by the loop is well formed: every key once in the order, order and key set agree |
| Extractor.ExtractTable | scraper.py:19-23 | without a table container the result is the empty dict |
| Extractor.FetchPrices | scraper.py:19-48 | the loop over the rows yields exactly the extraction function's dict, keys in their order |
| Extractor.ExtractKeys | scraper.py:26-46 | a name is a key of the result iff some row is a product row with that name |
| Extractor.ExtractOrder | scraper.py:39 | keys are ordered by first occurrence: for any two keys, the earlier one's first product row precedes every product row of the later one |
| Extractor.ExtractValues | scraper.py:39-46 | a key's value is that of a product row with that name that no later product row names again, so the last one wins |
| Extractor.SkippedRowChangesNothing | scraper.py:34-36 | a header, closing-quote or other non-product row leaves the dict unchanged |
| Extractor.FilteredRowExamples | scraper.py:35-36 | a row with "賣出/克" / "買入/克" price cells is a header, a "紐約收盤" row is the closing quote, a 1-cell row is not data |
| Extractor.TwoPriceRowExample | scraper.py:39 | `["足金", "1234", "1200"]` maps "足金" to "賣出:1234 / 買入:1200" |
| Extractor.SinglePriceRowExample | scraper.py:42-46 | a 2-cell row such as "黃金飾品收購" maps its name to its second cell |
| Notifier.ChangeReport | scraper.py:72-74 | one entry per key in dict order, with the new price, marked iff the old dict lacks the key or holds another value (`old_prices.get(item) != price`) |
| Notifier.RenderMessage | scraper.py:70-77 | the `+=` loop yields the title, the opening fence, one bullet per report entry in order, the closing fence and the link line |
| Notifier.BulletsAppend | scraper.py:72-75 | the bullets of two reports back to back are the two bullet blocks back to back |
| Notifier.BulletAt | scraper.py:72-75 | the i-th bullet of the block is the bullet of entry i, between the bullets of the entries before it and after it |
| Notifier.FirstRunMarksEveryItem | scraper.py:63 | with no prior file (`old_prices = {}`) every bullet carries the marker |
| Notifier.ReportShowsChange | scraper.py:69-75 | the dicts differ iff some bullet is marked or some old item is missing from the new dict (such an item is not listed) |
| Monitor.OldPrices | scraper.py:63-66 | with no snapshot file the old dict is empty; otherwise it is the saved dict's content |
| Monitor.Persisted | scraper.py:81-83 | a detected change writes the new dict as the snapshot, and the snapshot changes only on a detected change |
| Monitor.PairsDetermineDict | scraper.py:69 | dict equality is equality of the sets of (key, value) pairs, key order playing no part |
| Monitor.Decide | scraper.py:58-86 | an empty extraction aborts; a change is detected iff the new dict is non-empty and its (key, value) pairs differ from the old ones, and the message is then the rendered report against the old dict |
| Monitor.Monitor.SendMessage | scraper.py:50-55 | the message is posted iff a webhook is set; otherwise nothing happens |
| Monitor.Monitor.Run | scraper.py:57-86 | the run's verdict is `Decide` of the extracted dict and the snapshot; the snapshot is overwritten with the new dict only on a detected change; the message is posted only then, and only if a webhook is set |
| Monitor.EmptyExtractionKeepsBaseline | scraper.py:58-61 | an empty extraction sends nothing and leaves the stored snapshot as it was |
| Monitor.WriteIffChanged | scraper.py:79-86 | the snapshot changes or a message is produced iff the new dict is non-empty and differs from the old one as a set of pairs |
| Monitor.OrderDoesNotDecide | scraper.py:69 | two new dicts with the same pairs in different key order lead to the same notify decision |
| Monitor.UpToDateSnapshotIsSilent | scraper.py:85-86 | a snapshot holding the freshly extracted dict means no message and no write |
| Monitor.SecondRunIsSilent | scraper.py:82-83 | running again on the same page right after a run produces no message and no write |
| Monitor.FirstRunNotifiesEverything | scraper.py:63-77 | with no snapshot file a non-empty extraction is always a change, and every item is marked |
| Monitor.ScenarioRows | scraper.py:39-46 | the rows `["白金","–"]`, `["金條","3500","3400"]` give "白金" ↦ "–" then "金條" ↦ "賣出:3500 / 買入:3400" |
| Monitor.ScenarioExample | scraper.py:69-83 | against the snapshot `{"金條": "賣出:3400 / 買入:3300"}` those rows notify and replace the snapshot |
| Monitor.ScenarioReport | scraper.py:72-75 | in that message both items are listed in row order and both are marked |

## Left out

- The HTTP download (`requests.get` with its User-Agent header and the forced UTF-8 decoding) is external I/O; the model takes the page as its parsed rows.
- The HTML parsing (BeautifulSoup `find`, `find_all("tr")`, `find_all("td")`, `get_text(strip=True)`) is a foreign library. A row is the list of its stripped `td` texts, and `None` stands for a missing container.
- Reading `DISCORD_WEBHOOK` with `os.getenv` is environment access; it is the constant `webhookSet`.
- The webhook post wraps the message in the JSON payload `{"content": ...}`. The model records only the message text in `posted`, and the response of the post is ignored, as in the program.
- File existence, `open`, `json.load` and `json.dump` are file I/O and JSON serialisation. The snapshot is the field `stored`. A snapshot that is not valid JSON, or that holds non-string values, is not modelled: the program makes no provision for either.
- A `requests.get`, `requests.post` or `open(DATA_FILE, "w")` that raises (connection refused, DNS failure, reset) ends the real run with an exception, and with no timeout set either call can also hang. After a detected change whose post raised, the program keeps the old snapshot because `json.dump` is never reached. `Run` models only runs in which these calls return, so its contract always writes the snapshot on a detected change.
- The `print` logging and the `__main__` entry produce no state the model needs.
- Dafny strings are sequences of Unicode scalar values, while Python strings are sequences of code points. The two differ only for lone surrogates, which cannot come from UTF-8-decoded text.
