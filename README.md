# Purchase-list bot: a Dafny model

`bot.py` is a Telegram bot that keeps a purchase list for each chat. The list
lives in a Google spreadsheet: every chat has a worksheet titled with its chat
id, and column A of that worksheet holds the header `Артикул` followed by one
entry per row. The bot registers five handlers. `/start` only sends a fixed help
text and is left out; the model covers the other four:

- `/add <артикул>` appends the joined, stripped arguments as a new row.
- `/list` shows the non-blank entries, with one "✅ Куплено: …" button each.
  The button of entry `i` carries the payload `remove_{i}`.
- `/clear` deletes every row below the header.
- Pressing a button decodes the payload. The listing is fetched again and the
  index is range-checked against it. Then sheet row `index + 2` is deleted.

This project models that core in Dafny and proves its properties:

- `Wrappers` holds `Option`, the result of a Python call that may raise.
- `PyText` models the Python string built-ins the bot uses:
  - `str.isspace`, `strip`, `" ".join`, `split("_")`;
  - `str(n)` for `n >= 0`, and `int(s)` in base 10.
- `Filtering` models the list comprehension `[x for x in s if keep(x)]`. It
  also pins down the raw position each kept element came from. It is generic,
  so its proofs never unfold what `keep` means.
- `Rows` models one worksheet as the sequence of its column-A values:
  - the listing `get_items`;
  - the effect of `update('A1', …)`, `append_row` and `delete_rows` on those
    values;
  - clearing;
  - the translation from a listed position to a raw row.
- `Callback` models the button payload: building it with `f"remove_{i}"` and
  reading it back with `startswith` and `int(data.split("_")[1])`.
- `Sheet` models the spreadsheet. The class `Spreadsheet` holds a map from
  chat id to column A. Its methods are the worksheet calls the bot makes and
  the bot's helpers `get_worksheet`, `get_items`, `add_item_to_sheet` and
  `remove_item_from_sheet`.
- `Handlers` models `add_item`, `show_list`, `clear_list` and
  `button_handler`:
  - each is a method on the `Spreadsheet`;
  - each returns the text the bot would send;
  - each is proved against the functions of `Rows` and `Callback`;
  - each keeps the invariant `Preserves`: only the chat's own worksheet
    changes, every first row stays, and a new worksheet starts with the
    header.
  - each keeps `NoEmptyCells`: when no cell of column A was empty, none is
    afterwards. `/add` needs a non-empty entry for this. Under that invariant
    the stored column is exactly what `col_values` reads.

Python's `int()` is modelled as follows:

- surrounding whitespace is dropped: the `str.isspace` characters except U+001C to U+001F, which CPython's integer parser does not skip;
- an optional `+` or `-` sign is allowed;
- then one or more ASCII digits must follow, of any length (CPython's 4300-digit limit is left out, see below).

Underscores between digits never reach `int()`, because the field comes from
`split("_")`; `Split`'s contract says no piece holds `_`.

## Model

| member | source | states |
|---|---|---|
| PyText.Trim | bot.py:45 | the text with a given set of whitespace removed from both ends: no longer than the input, and empty or starting and ending with a character outside the set |
| PyText.TrimNoSpaceEnds | bot.py:45 | a text whose ends are outside the set is its own trimming |
| PyText.Strip | bot.py:45 | `strip()`: the result is no longer than the input, and it is empty or starts and ends with a non-whitespace character |
| PyText.StripIsSlice | bot.py:70 | the stripped text is a slice of the input, and everything before and after that slice is whitespace |
| PyText.StripNoSpaceEnds | bot.py:70 | a text whose ends are not whitespace is its own `strip()` |
| PyText.StripEmptyIffAllSpace | bot.py:45 | `item.strip()` is empty exactly when `item` is all whitespace, "" included (both directions) |
| PyText.StripIdempotent | bot.py:70 | stripping twice gives what stripping once gives |
| PyText.Join | bot.py:70 | `" ".join(args)`: empty exactly when there are no arguments or a single empty one |
| PyText.JoinEnds | bot.py:70 | the joined text starts with the first argument's first character and ends with the last argument's last character |
| PyText.Split | bot.py:100 | `split("_")` gives at least one piece, no piece holds `_`, and there are two or more pieces exactly when the text holds `_` |
| PyText.SplitWithoutSep | bot.py:100 | a text without `_` splits into itself alone |
| PyText.SplitAtFirstSep | bot.py:100 | splitting at the first `_` peels off the text before it and splits the rest |
| PyText.JoinSplit | bot.py:100 | joining the pieces of a split with the separator restores the text |
| PyText.SplitJoin | bot.py:100 | splitting a join of `_`-free pieces gives the pieces back |
| PyText.NatToString | bot.py:81 | `str(i)` for `i >= 0` is a non-empty run of decimal digits with no leading zero unless `i == 0` |
| PyText.DigitsValueOfNat | bot.py:81 | the digits of `str(n)` spell `n` |
| PyText.ParseInt | bot.py:100 | `int()`: a number is read only from text that, once the whitespace `int()` skips is trimmed, ends in a digit, and it is negative only when that text starts with `-` |
| PyText.ParseIntOfNat | bot.py:100 | `int(str(n)) == n` for every `n >= 0` |
| PyText.ParseIntOfNegated | bot.py:100 | `int("-" + str(n)) == -n` |
| PyText.ParseIntOfBlank | bot.py:100 | `int()` raises on every all-whitespace text, including the empty one |
| PyText.ParseIntOfSeparator | bot.py:100 | `int()` does not skip U+001C, which `strip()` drops: `int("\x1c5")` raises, while `"\x1c5".strip()` is `"5"` |
| Filtering.Filter | bot.py:45 | the comprehension is no longer than its input, and every element in it passes the test |
| Filtering.FilterConcat | bot.py:45 | the comprehension filter distributes over concatenation, so it keeps storage order |
| Filtering.FilterMembers | bot.py:45 | an element is in the filtered list exactly when it is in the input and passes the test |
| Filtering.FilterAllKept | bot.py:45 | a list whose every element passes is its own filtering |
| Filtering.FilterNoneKept | bot.py:45 | a list whose every element fails the test is filtered away entirely |
| Filtering.FilterShorter | bot.py:45 | a list holding an element that fails the test loses at least one element |
| Filtering.FilterCons | bot.py:45 | the filtering of `[x] + s` is `x` (when it passes) followed by the filtering of `s` |
| Filtering.NthKept | bot.py:45 | the raw position of the `n`-th kept element is at least `n` and within the input |
| Filtering.NthKeptSpec | bot.py:45 | the element at that position is filtered entry `n`, it passes the test, and exactly `n` kept elements come before it |
| Filtering.RemovingNthKept | bot.py:101-103 | deleting the element at that position removes exactly entry `n` from the filtering and keeps the rest in order |
| Filtering.NthKeptOfKeptPrefix | bot.py:101-103 | when the first `n + 1` elements all pass, the `n`-th kept one sits at position `n` |
| Filtering.NthKeptIsIdentity | bot.py:101-103 | the `n`-th kept element sits at position `n` exactly when the first `n + 1` elements all pass (both directions) |
| Rows.Items | bot.py:43-45 | `get_items` on a column: a column holding at most the header lists nothing, and no listed entry is blank |
| Rows.BlankIffStripEmpty | bot.py:45 | the blank-row test the model uses agrees with `not row.strip()` |
| Rows.ItemsMembers | bot.py:43-45 | an entry is listed exactly when it is a non-blank row after the header |
| Rows.ItemsOfNoBlanks | bot.py:43-45 | a worksheet without blank data rows lists exactly its rows after the header, in storage order |
| Rows.ItemsOfNewWorksheet | bot.py:39-40 | the header is not blank, and a worksheet holding only the header lists nothing |
| Rows.TrimTrailingEmpty | bot.py:45 | what gspread's `col_values(1)` returns: the stored column without its trailing empty cells, ending in a value |
| Rows.TrimOfNoEmptyCell | bot.py:45 | a column with no empty cell is read back whole |
| Rows.ItemsIgnoreTrailingEmpty | bot.py:45 | dropping trailing empty cells changes nothing that is listed |
| Rows.NoEmptyCellKept | bot.py:88-90 | clearing the rows below the header, like appending a non-empty value (bot.py:48), keeps every cell filled |
| Rows.NoEmptyCellAfterDelete | bot.py:52 | `delete_rows` keeps every cell filled |
| Rows.SetA1 | bot.py:40 | `update('A1', v)` makes the first row `v` and leaves every other row as it was |
| Rows.ItemsAfterAppend | bot.py:47-48 | after `append_row([x])` the listing is the old listing followed by `x`, unless `x` is blank |
| Rows.DeleteRows | bot.py:52 | `delete_rows(start, end)` removes the 1-based rows `start..end` (clipped to the stored values), keeps the rows above and moves the rows below up; from row 2 on, the header survives |
| Rows.ClearData | bot.py:88-90 | `/clear` on a column leaves only its first row (none when it was empty), so nothing is listed |
| Rows.ClearIdempotent | bot.py:87-90 | clearing a cleared worksheet changes nothing |
| Rows.RemoveWithoutBlanks | bot.py:101-104 | with no blank data row, sheet row `index + 2` is listed entry `index`, and deleting it leaves the old listing without that entry |
| Rows.RemoveWithBlankMissesEntry | bot.py:52 | as written: for `[Артикул, " ", "Болт"]` and index 0, `delete_rows(2)` removes the blank row and `Болт` is still listed |
| Rows.RemoveListed | bot.py:101-104 | corrected removal: deleting the raw row listed entry `index` came from keeps the header, removes one row, and the listing loses exactly entry `index` |
| Rows.RemoveListedMatchesRawRow | bot.py:52 | the corrected removal hits raw row `index + 1` exactly when no data row down to it is blank (both directions) |
| Rows.RawRowRemovalIsCorrect | bot.py:102-104 | with no blank down to raw row `index + 1`, deleting sheet row `index + 2` is the corrected removal; the deleted row is the listed entry, and the new listing is the old one without it |
| Rows.DeleteOneRow | bot.py:52 | deleting sheet row `index + 2` keeps the header and drops raw row `index + 1` |
| Callback.StartsWith | bot.py:98 | `data.startswith(prefix)` holds exactly when `data` is `prefix` followed by the rest of `data` |
| Callback.Encode | bot.py:81-82 | every payload `f"remove_{i}"` that `/list` renders decodes, through `split("_")` and `int()`, to a request to remove entry `i` |
| Callback.Decode | bot.py:98-100 | a payload without the `remove_` prefix is ignored, and only such a payload is ignored |
| Callback.DecodeField | bot.py:100 | a prefixed payload is read from the text between the prefix and the next `_` |
| Callback.EncodeInjective | bot.py:81-82 | distinct positions get distinct payloads |
| Callback.DecodeBarePrefix | bot.py:100 | the payload `remove_` alone makes `int("")` raise, so it is malformed |
| Callback.DecodeIgnoresLaterFields | bot.py:100 | only the first field after the prefix is read: `remove_{i}_…` removes entry `i` |
| Callback.DecodeNegative | bot.py:100 | `remove_-n` decodes to the index `-n`; for `n >= 1` that index is negative and the range check rejects it, while `remove_-0` decodes to `Remove(0)`, which the range check accepts on any non-empty list |
| Sheet.WithWorksheet | bot.py:35-41 | after `get_worksheet` the chat has a worksheet; an existing one is kept, a new one holds only the header, and no other worksheet changes |
| Sheet.LazyCreation | bot.py:35-45 | a new chat's worksheet lists nothing, and a second `get_worksheet` adds no row |
| Sheet.PreservedByRewrite | bot.py:35-52 | creating the chat's worksheet and replacing its column by one with the same first row keeps the handler invariant |
| Sheet.PreservesHeaded | bot.py:39-40 | handlers that keep the invariant keep every worksheet starting with the header |
| Sheet.NoEmptyCellsRewrite | bot.py:35-52 | creating the chat's worksheet and replacing its column by one without empty cells keeps every cell of every worksheet filled |
| Sheet.LookupKeeps | bot.py:35-41 | `get_worksheet` alone keeps the handler invariant and keeps every cell filled |
| Sheet.RowRemovalKeeps | bot.py:50-52 | `remove_item_from_sheet` keeps the handler invariant and keeps every cell filled |
| Sheet.Spreadsheet.constructor | bot.py:26 | the opened spreadsheet holds the given worksheets |
| Sheet.Spreadsheet.ColValues | bot.py:45 | `col_values(1)` reads the stored column, which is exactly what gspread returns whenever no cell is empty (also read by `/clear`, bot.py:88) |
| Sheet.Spreadsheet.AddWorksheet | bot.py:39 | a new, empty worksheet for the chat; nothing else changes |
| Sheet.Spreadsheet.UpdateA1 | bot.py:40 | the chat's first row becomes the value; nothing else changes |
| Sheet.Spreadsheet.AppendRow | bot.py:48 | the value becomes the chat's new last row; nothing else changes |
| Sheet.Spreadsheet.DeleteRowsOf | bot.py:52 | the chat's column loses the given rows; nothing else changes |
| Sheet.Spreadsheet.GetWorksheet | bot.py:35-41 | the worksheets become `WithWorksheet` of the old ones |
| Sheet.Spreadsheet.GetItems | bot.py:43-45 | lazily creates the worksheet, then returns its listing; no listed entry is blank, and a new chat lists nothing |
| Sheet.Spreadsheet.AddItemToSheet | bot.py:47-48 | lazily creates the worksheet, then appends the entry as its last row |
| Sheet.Spreadsheet.RemoveItemFromSheet | bot.py:50-52 | lazily creates the worksheet, then deletes sheet row `index + 2` |
| Handlers.ItemText | bot.py:70 | the entry `/add` stores neither starts nor ends with whitespace, so it is blank only when it is empty |
| Handlers.ItemTextOfWords | bot.py:66-70 | for the whitespace-free words Telegram passes, the stored entry is their plain join and is never blank |
| Handlers.Keyboard | bot.py:80-82 | one button per listed entry, in order, captioned "✅ Куплено: " plus the entry, whose payload decodes to that entry's position |
| Handlers.AddItem | bot.py:64-72 | without arguments: the usage reply, with no worksheet touched (not even created); otherwise the stripped join is appended to the chat's worksheet, the reply confirms it, and the listing grows by that entry unless it is blank; a non-empty entry keeps every cell filled |
| Handlers.ShowList | bot.py:74-83 | lazy creation only; an empty listing gets "Список пуст 🛒" and no keyboard, otherwise the title and the keyboard of the listing; every cell stays filled |
| Handlers.ClearList | bot.py:85-91 | only the chat's first row is left, so nothing is listed; a worksheet with its header ends as exactly `[Артикул]`; every cell stays filled; the reply is "Список очищен 🧹" |
| Handlers.RemoveAt | bot.py:101-106 | out of range: "Позиция не найдена." and lazy creation only; in range: sheet row `index + 2` deleted and the reply names `items[index]`; with no blank row down to the entry, the deleted row is the named entry, the result is the corrected removal, and the listing loses exactly that entry; every cell stays filled |
| Handlers.ButtonHandler | bot.py:93-109 | for each payload: ignored (no change, no reply), malformed ("Ошибка удаления.", no change, no worksheet created), out of range ("Позиция не найдена.", lazy creation only) or in range (sheet row `index + 2` deleted, reply names `items[index]`); with no blank row down to the entry, the deleted row is the named entry and the listing loses exactly it |

## Left out

- The `start` handler (bot.py:55-62): it only sends a fixed help text.
- Telegram I/O. Sending replies, `query.answer()`, `edit_message_text` and the keyboard objects all become returned values. A keyboard is a sequence of one-button rows, modelled as a sequence of buttons.
- Configuration, Google credentials, `gspread.authorize` and `open_by_key` (bot.py:16-26). The spreadsheet is a map from chat id to column A, passed to the constructor.
- Logging (bot.py:29-32, bot.py:108).
- The Application and handler registration, the asyncio loop, webhook registration and the Flask routes and server (bot.py:112-150). These are framework wiring, network and concurrency. Updates are modelled as handled one at a time.
- Failures of the spreadsheet service. Quota, network and permission errors make the gspread calls raise; `button_handler` answers those with "Ошибка удаления." and the other handlers propagate them. The model's store calls always succeed. Only the `int()` ValueError is modelled as the failure path.
- `int()` on non-ASCII Unicode digits: Python accepts them; the model treats them as malformed. The whitespace `int()` skips is modelled separately from `strip()`'s (`PyText.IsIntSpace`): `str.isspace` without U+001C to U+001F.
- The length limit on `int()`: CPython 3.11 and later raise ValueError on a digit string longer than 4300 digits (`sys.get_int_max_str_digits()`), and `PyText.ParseInt` reads digits of any length. For such a payload the model would answer "Позиция не найдена." and create the worksheet, where bot.py:107-109 answers "Ошибка удаления.". It cannot arise, because Telegram caps `callback_data` at 64 bytes.
- Columns B and up and the grid size (`rows="100", cols="2"`) of a new worksheet. Only column A is read or written.
- Sheet.Spreadsheet.ColValues: returns the stored column, empty cells included. gspread's `col_values` drops trailing empty cells (`Rows.TrimTrailingEmpty`). The two agree whenever no cell is empty (`NoEmptyCells`), and every handler keeps that. For `/add`, this needs a non-empty entry, which Telegram's words always give (`Handlers.ItemTextOfWords`). A worksheet whose cells were emptied by hand is not modelled faithfully. The listing is the same (`Rows.ItemsIgnoreTrailingEmpty`), but `append_row` lands right after the last value rather than after the empty cells. So the model puts an appended entry lower than the real sheet does, and a later removal by position deletes a different row. `/clear` also counts rows differently there.
- Rows.DeleteRows: deleting rows past the worksheet's grid raises an API error in gspread; the model clips the range to the stored values instead. The bot's own calls stay within the stored values: `/clear` deletes up to `len(col_values)`, and the button handler deletes only after its range check.
- Quantity parsing and formatting, merging duplicate entries, statistics and a background ingestion queue are described for the system but absent from `bot.py`, whose `/add` only appends. The model follows the code and leaves them out.

## Findings

| source | as written | input that shows it | evidently intended | confidence | as-written member | corrected member |
|---|---|---|---|---|---|---|
| bot.py:45, bot.py:52, bot.py:101-104 | `remove_item_from_sheet` deletes sheet row `index + 2`, counting raw rows, while `index` counts listed entries, from which `get_items` drops blank rows | a worksheet `[Артикул, " ", Болт]` (a blank cell typed in by hand) and the payload `remove_0`: the blank row is deleted, the reply says "✅ Убрано: Болт", and `Болт` is still listed | delete the row listed entry `index` came from | not executed; blank rows arise only from edits outside the bot, because `/add` never stores a blank entry from Telegram's words | Rows.RemoveWithBlankMissesEntry | Rows.RemoveListed |

`Handlers.ButtonHandler` models the code as written. Its contract also names the cases where the code agrees with `Rows.RemoveListed`: when no data row down to the chosen entry is blank, the new worksheet is exactly `RemoveListed` of the old one. `Rows.RemoveListedMatchesRawRow` shows that these are the only cases in which both removals delete the same raw row. With duplicate entries the resulting worksheets can still coincide, as in `[Артикул, " ", a, a]` with `remove_1`.
