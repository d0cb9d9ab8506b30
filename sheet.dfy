/**
 * The spreadsheet the bot keeps its purchase lists in: one worksheet per
 * chat, titled with the chat id, whose column A holds the header and then one
 * entry per row. The class holds the column of every worksheet and models the
 * worksheet calls the bot makes (`add_worksheet`, `update`, `append_row`,
 * `delete_rows`, `col_values`) and the bot's own helpers built on them.
 */
module Sheet {
  import opened Rows

  /** A chat id; the chat's worksheet is titled `str(chat_id)`, so ids and titles correspond one to one. */
  type ChatId = int

  type Worksheets = map<ChatId, seq<string>>

  /**
   * The worksheets once `get_worksheet(chat)` has run: the chat's worksheet if
   * it existed, otherwise a new one holding only the header; no other
   * worksheet is touched.
   */
  function WithWorksheet(sheets: Worksheets, chat: ChatId): (r: Worksheets)
    ensures chat in r && r.Keys == sheets.Keys + {chat}
    ensures forall c :: c in sheets ==> r[c] == sheets[c]
    ensures chat !in sheets ==> r[chat] == [Header]
  {
    if chat in sheets then sheets else sheets[chat := [Header]]
  }

  /**
   * A chat without a worksheet gets one that lists nothing, and a second
   * `get_worksheet` finds that worksheet and adds no row.
   */
  lemma LazyCreation(sheets: Worksheets, chat: ChatId)
    ensures chat !in sheets ==> Items(WithWorksheet(sheets, chat)[chat]) == []
    ensures WithWorksheet(WithWorksheet(sheets, chat), chat) == WithWorksheet(sheets, chat)
  {
    ItemsOfNewWorksheet();
  }

  /**
   * What every handler keeps: each worksheet is still there with its first
   * row unchanged, only the worksheet of `chat` may differ, and the only
   * worksheet that may appear is that of `chat`, starting with the header.
   */
  predicate Preserves(before: Worksheets, after: Worksheets, chat: ChatId) {
    && before.Keys <= after.Keys <= before.Keys + {chat}
    && (forall c :: c in before && c != chat ==> after[c] == before[c])
    && (forall c :: c in before && |before[c]| >= 1 ==> |after[c]| >= 1 && after[c][0] == before[c][0])
    && (chat in after && chat !in before ==> |after[chat]| >= 1 && after[chat][0] == Header)
  }

  /** Every worksheet starts with the header row, as every worksheet the bot creates does. */
  predicate Headed(sheets: Worksheets) {
    forall c :: c in sheets ==> |sheets[c]| >= 1 && sheets[c][0] == Header
  }

  /** A handler starting from worksheets that all have their header leaves them so. */
  lemma PreservesHeaded(before: Worksheets, after: Worksheets, chat: ChatId)
    requires Preserves(before, after, chat)
    ensures Headed(before) ==> Headed(after)
  {
  }

  /**
   * Creating the chat's worksheet when needed and then replacing its column
   * by one with the same first row keeps what `Preserves` asks for.
   */
  lemma PreservedByRewrite(before: Worksheets, chat: ChatId, column: seq<string>)
    requires chat in before && |before[chat]| >= 1 ==> |column| >= 1 && column[0] == before[chat][0]
    requires chat !in before ==> |column| >= 1 && column[0] == Header
    ensures Preserves(before, WithWorksheet(before, chat), chat)
    ensures Preserves(before, WithWorksheet(before, chat)[chat := column], chat)
  {
    var w := WithWorksheet(before, chat);
    var after := w[chat := column];
    forall c | c in before && |before[c]| >= 1
      ensures |after[c]| >= 1 && after[c][0] == before[c][0]
    {
      if c != chat {
        assert after[c] == before[c];
      }
    }
  }

  /** No worksheet has an empty cell in column A. */
  predicate NoEmptyCells(sheets: Worksheets) {
    forall c :: c in sheets ==> NoEmptyCell(sheets[c])
  }

  /**
   * Creating the chat's worksheet when needed and then replacing its column
   * by one without empty cells keeps every cell of every worksheet filled.
   */
  lemma NoEmptyCellsRewrite(before: Worksheets, chat: ChatId, column: seq<string>)
    requires NoEmptyCells(before) && NoEmptyCell(column)
    ensures NoEmptyCells(WithWorksheet(before, chat))
    ensures NoEmptyCells(WithWorksheet(before, chat)[chat := column])
  {
    ItemsOfNewWorksheet();
  }

  /** `get_worksheet` alone keeps both invariants. */
  lemma LookupKeeps(before: Worksheets, chat: ChatId)
    ensures Preserves(before, WithWorksheet(before, chat), chat)
    ensures NoEmptyCells(before) ==> NoEmptyCells(WithWorksheet(before, chat))
  {
    PreservedByRewrite(before, chat, WithWorksheet(before, chat)[chat]);
    if NoEmptyCells(before) {
      NoEmptyCellsRewrite(before, chat, []);
    }
  }

  /** `remove_item_from_sheet(chat, index)` keeps both invariants. */
  lemma RowRemovalKeeps(before: Worksheets, chat: ChatId, index: nat)
    ensures var w := WithWorksheet(before, chat);
            var after := w[chat := DeleteRows(w[chat], index + 2, index + 2)];
            Preserves(before, after, chat) && (NoEmptyCells(before) ==> NoEmptyCells(after))
  {
    var w := WithWorksheet(before, chat);
    var column := DeleteRows(w[chat], index + 2, index + 2);
    PreservedByRewrite(before, chat, column);
    if NoEmptyCells(before) {
      NoEmptyCellsRewrite(before, chat, []);
      NoEmptyCellAfterDelete(w[chat], index + 2, index + 2);
      NoEmptyCellsRewrite(before, chat, column);
    }
  }

  class Spreadsheet {
    /** Column A of every worksheet, keyed by the chat id its title spells. */
    var worksheets: Worksheets

    constructor (initial: Worksheets)
      ensures worksheets == initial
    {
      worksheets := initial;
    }

    /**
     * `ws.col_values(1)`: the stored column, which is what gspread returns
     * (the column without its trailing empty cells) whenever no cell is empty.
     */
    function ColValues(chat: ChatId): (col: seq<string>)
      reads this
      requires chat in worksheets
      ensures NoEmptyCell(worksheets[chat]) ==> col == TrimTrailingEmpty(worksheets[chat])
    {
      var col := worksheets[chat];
      assert NoEmptyCell(col) ==> TrimTrailingEmpty(col) == col by {
        if NoEmptyCell(col) {
          TrimOfNoEmptyCell(col);
        }
      }
      col
    }

    /** `sheet.add_worksheet(title=str(chat), ...)`: a new worksheet whose column A is empty. */
    method AddWorksheet(chat: ChatId)
      requires chat !in worksheets
      modifies this
      ensures worksheets == old(worksheets)[chat := []]
    {
      worksheets := worksheets[chat := []];
    }

    /** `ws.update('A1', value)`. */
    method UpdateA1(chat: ChatId, value: string)
      requires chat in worksheets
      modifies this
      ensures worksheets == old(worksheets)[chat := SetA1(old(worksheets)[chat], value)]
    {
      worksheets := worksheets[chat := SetA1(worksheets[chat], value)];
    }

    /** `ws.append_row([value])`: the value lands in column A of a new last row. */
    method AppendRow(chat: ChatId, value: string)
      requires chat in worksheets
      modifies this
      ensures worksheets == old(worksheets)[chat := old(worksheets)[chat] + [value]]
    {
      worksheets := worksheets[chat := worksheets[chat] + [value]];
    }

    /** `ws.delete_rows(start, end)`, 1-based and inclusive. */
    method DeleteRowsOf(chat: ChatId, start: nat, end: nat)
      requires chat in worksheets
      requires 1 <= start <= end
      modifies this
      ensures worksheets == old(worksheets)[chat := DeleteRows(old(worksheets)[chat], start, end)]
    {
      worksheets := worksheets[chat := DeleteRows(worksheets[chat], start, end)];
    }

    /**
     * `get_worksheet`: look the chat's worksheet up; when it is missing, add
     * it and write the header into A1.
     */
    method GetWorksheet(chat: ChatId)
      modifies this
      ensures worksheets == WithWorksheet(old(worksheets), chat)
    {
      if chat !in worksheets {
        AddWorksheet(chat);
        UpdateA1(chat, Header);
      }
    }

    /** `get_items`: the chat's listing, after creating its worksheet if needed. */
    method GetItems(chat: ChatId) returns (items: seq<string>)
      modifies this
      ensures worksheets == WithWorksheet(old(worksheets), chat)
      ensures items == Items(worksheets[chat])
      ensures forall k :: 0 <= k < |items| ==> !IsBlank(items[k])
      ensures chat !in old(worksheets) ==> items == []
    {
      GetWorksheet(chat);
      LazyCreation(old(worksheets), chat);
      items := Items(ColValues(chat));
    }

    /** `add_item_to_sheet`: append `item` below the chat's last row. */
    method AddItemToSheet(chat: ChatId, item: string)
      modifies this
      ensures var w := WithWorksheet(old(worksheets), chat);
              worksheets == w[chat := w[chat] + [item]]
    {
      GetWorksheet(chat);
      AppendRow(chat, item);
    }

    /**
     * `remove_item_from_sheet`: delete sheet row `index + 2`, that is the raw
     * row `index + 1` of the column, counting the header as row 0.
     */
    method RemoveItemFromSheet(chat: ChatId, index: nat)
      modifies this
      ensures var w := WithWorksheet(old(worksheets), chat);
              worksheets == w[chat := DeleteRows(w[chat], index + 2, index + 2)]
    {
      GetWorksheet(chat);
      DeleteRowsOf(chat, index + 2, index + 2);
    }
  }
}
