/**
 * The bot's command handlers `/add`, `/list`, `/clear` and the handler of the
 * list's buttons. Each runs against the spreadsheet and returns the text the
 * bot would send back (the Telegram calls themselves are not modelled).
 */
module Handlers {
  import opened Wrappers
  import opened PyText
  import opened Rows
  import opened Callback
  import opened Sheet

  const UsageReply: string := "UsageId: /add <артикул>"
  const EmptyReply: string := "Список пуст 🛒"
  const ListTitle: string := "Список закупок:"
  const ClearedReply: string := "Список очищен 🧹"
  const NotFoundReply: string := "Позиция не найдена."
  const FailedReply: string := "Ошибка удаления."

  function AddedReply(item: string): string {
    "✅ Добавлено: " + item
  }

  function RemovedReply(item: string): string {
    "✅ Убрано: " + item
  }

  /** One inline button: its caption and the payload sent back when it is pressed. */
  datatype Button = Button(caption: string, callbackData: string)

  function BoughtLabel(item: string): string {
    "✅ Куплено: " + item
  }

  /**
   * The entry `/add` stores: `" ".join(args).strip()`. It neither starts nor
   * ends with whitespace, so it is blank only when it is empty.
   */
  function ItemText(args: seq<string>): (item: string)
    ensures item == "" || (!IsSpace(item[0]) && !IsSpace(item[|item| - 1]))
    ensures IsBlank(item) <==> item == ""
  {
    Strip(Join(args, ' '))
  }

  /**
   * The arguments Telegram passes to a command are the non-empty,
   * whitespace-free words after it; for those the stored entry is their
   * plain join and is never blank.
   */
  lemma ItemTextOfWords(args: seq<string>)
    requires |args| >= 1
    requires forall k :: 0 <= k < |args| ==> |args[k]| >= 1 && forall j :: 0 <= j < |args[k]| ==> !IsSpace(args[k][j])
    ensures ItemText(args) == Join(args, ' ') && !IsBlank(ItemText(args))
  {
    var j := Join(args, ' ');
    JoinEnds(args, ' ');
    StripNoSpaceEnds(j);
    assert !IsSpace(j[0]);
  }

  /**
   * The keyboard `show_list` renders: one button per entry, in list order,
   * whose payload decodes back to that entry's position.
   */
  function Keyboard(items: seq<string>): (keyboard: seq<Button>)
    ensures |keyboard| == |items|
    ensures forall i :: 0 <= i < |items| ==>
              keyboard[i].caption == BoughtLabel(items[i]) && Decode(keyboard[i].callbackData) == Remove(i)
  {
    seq(|items|, i requires 0 <= i < |items| => Button(BoughtLabel(items[i]), Encode(i)))
  }

  /**
   * `/add`: with no arguments, reply with the usage line and touch nothing
   * (not even the chat's worksheet). Otherwise append the joined, stripped
   * arguments to the chat's worksheet (creating it if needed) and confirm.
   */
  method AddItem(s: Spreadsheet, chat: ChatId, args: seq<string>) returns (reply: string)
    modifies s
    ensures Preserves(old(s.worksheets), s.worksheets, chat)
    ensures |args| == 0 ==> reply == UsageReply && s.worksheets == old(s.worksheets)
    ensures |args| > 0 ==>
              var w := WithWorksheet(old(s.worksheets), chat);
              && reply == AddedReply(ItemText(args))
              && s.worksheets == w[chat := w[chat] + [ItemText(args)]]
    ensures |args| > 0 && (chat in old(s.worksheets) ==> |old(s.worksheets)[chat]| >= 1) ==>
              var w := WithWorksheet(old(s.worksheets), chat);
              var item := ItemText(args);
              Items(s.worksheets[chat]) == Items(w[chat]) + (if IsBlank(item) then [] else [item])
    ensures NoEmptyCells(old(s.worksheets)) && (|args| > 0 ==> ItemText(args) != "") ==>
              NoEmptyCells(s.worksheets)
  {
    if |args| == 0 {
      reply := UsageReply;
      return;
    }
    var item := Strip(Join(args, ' '));
    ghost var w := WithWorksheet(s.worksheets, chat);
    s.AddItemToSheet(chat, item);
    PreservedByRewrite(old(s.worksheets), chat, w[chat] + [item]);
    if NoEmptyCells(old(s.worksheets)) && item != "" {
      NoEmptyCellsRewrite(old(s.worksheets), chat, []);
      NoEmptyCellKept(w[chat], item);
      NoEmptyCellsRewrite(old(s.worksheets), chat, w[chat] + [item]);
    }
    if |w[chat]| >= 1 {
      ItemsAfterAppend(w[chat], item);
    }
    reply := AddedReply(item);
  }

  /**
   * `/list`: fetch the listing; if it is empty say so, otherwise send the
   * title and one button per entry.
   */
  method ShowList(s: Spreadsheet, chat: ChatId) returns (reply: string, keyboard: seq<Button>)
    modifies s
    ensures Preserves(old(s.worksheets), s.worksheets, chat)
    ensures s.worksheets == WithWorksheet(old(s.worksheets), chat)
    ensures NoEmptyCells(old(s.worksheets)) ==> NoEmptyCells(s.worksheets)
    ensures var items := Items(s.worksheets[chat]);
            && (items == [] ==> reply == EmptyReply && keyboard == [])
            && (items != [] ==> reply == ListTitle && keyboard == Keyboard(items))
  {
    var items := s.GetItems(chat);
    LookupKeeps(old(s.worksheets), chat);
    if |items| == 0 {
      reply, keyboard := EmptyReply, [];
      return;
    }
    keyboard := Keyboard(items);
    reply := ListTitle;
  }

  /**
   * `/clear`: with `rows` the length of column A, delete rows 2 to `rows`
   * when there are any; the header stays.
   */
  method ClearList(s: Spreadsheet, chat: ChatId) returns (reply: string)
    modifies s
    ensures Preserves(old(s.worksheets), s.worksheets, chat)
    ensures var w := WithWorksheet(old(s.worksheets), chat);
            s.worksheets == w[chat := ClearData(w[chat])]
    ensures |s.worksheets[chat]| <= 1 && Items(s.worksheets[chat]) == []
    ensures chat in old(s.worksheets) && |old(s.worksheets)[chat]| >= 1 ==>
              s.worksheets[chat] == [old(s.worksheets)[chat][0]]
    ensures chat !in old(s.worksheets) ==> s.worksheets[chat] == [Header]
    ensures Headed(old(s.worksheets)) ==> s.worksheets[chat] == [Header]
    ensures NoEmptyCells(old(s.worksheets)) ==> NoEmptyCells(s.worksheets)
    ensures reply == ClearedReply
  {
    ghost var w := WithWorksheet(s.worksheets, chat);
    s.GetWorksheet(chat);
    var rows := |s.ColValues(chat)|;
    if rows > 1 {
      s.DeleteRowsOf(chat, 2, rows);
    }
    if NoEmptyCells(old(s.worksheets)) {
      NoEmptyCellsRewrite(old(s.worksheets), chat, []);
      NoEmptyCellKept(w[chat], "");
      NoEmptyCellsRewrite(old(s.worksheets), chat, ClearData(w[chat]));
    }
    reply := ClearedReply;
  }

  /**
   * The body of the button handler once the index has parsed: fetch the
   * listing afresh (creating the worksheet if needed); an index outside it
   * gets the "not found" reply, and one inside deletes sheet row `index + 2`
   * and reports the listed entry.
   */
  method RemoveAt(s: Spreadsheet, chat: ChatId, index: int) returns (reply: string)
    modifies s
    ensures Preserves(old(s.worksheets), s.worksheets, chat)
    ensures NoEmptyCells(old(s.worksheets)) ==> NoEmptyCells(s.worksheets)
    ensures var w := WithWorksheet(old(s.worksheets), chat);
            var items := Items(w[chat]);
            if 0 <= index < |items| then
              && reply == RemovedReply(items[index])
              && s.worksheets == w[chat := DeleteRows(w[chat], index + 2, index + 2)]
            else
              reply == NotFoundReply && s.worksheets == w
    /*
     * When no data row down to the chosen one is blank, the deleted row is the
     * entry the reply names, as the corrected removal would delete it, and the
     * listing loses exactly that entry.
     */
    ensures var w := WithWorksheet(old(s.worksheets), chat);
            var items := Items(w[chat]);
            0 <= index < |items| && NoBlankUpTo(w[chat], index) ==>
              && reply == RemovedReply(w[chat][index + 1])
              && s.worksheets[chat] == RemoveListed(w[chat], index)
              && Items(s.worksheets[chat]) == items[..index] + items[index + 1..]
  {
    ghost var w := WithWorksheet(s.worksheets, chat);
    var items := s.GetItems(chat);
    if 0 <= index < |items| {
      s.RemoveItemFromSheet(chat, index);
      RowRemovalKeeps(old(s.worksheets), chat, index);
      reply := RemovedReply(items[index]);
      if NoBlankUpTo(w[chat], index) {
        RawRowRemovalIsCorrect(w[chat], index);
      }
    } else {
      LookupKeeps(old(s.worksheets), chat);
      reply := NotFoundReply;
    }
  }

  /**
   * The button handler. A payload without the `remove_` prefix is ignored
   * (no reply). One whose number does not parse gets the failure reply and
   * changes nothing, not even creating the worksheet. Otherwise `RemoveAt`
   * handles the index.
   */
  method ButtonHandler(s: Spreadsheet, chat: ChatId, data: string) returns (reply: Option<string>)
    modifies s
    ensures Preserves(old(s.worksheets), s.worksheets, chat)
    ensures NoEmptyCells(old(s.worksheets)) ==> NoEmptyCells(s.worksheets)
    ensures match Decode(data)
            case Ignore => reply == None && s.worksheets == old(s.worksheets)
            case Malformed => reply == Some(FailedReply) && s.worksheets == old(s.worksheets)
            case Remove(index) =>
              var w := WithWorksheet(old(s.worksheets), chat);
              var items := Items(w[chat]);
              if 0 <= index < |items| then
                && reply == Some(RemovedReply(items[index]))
                && s.worksheets == w[chat := DeleteRows(w[chat], index + 2, index + 2)]
              else
                reply == Some(NotFoundReply) && s.worksheets == w
    /* The agreement with the corrected removal that `RemoveAt` states. */
    ensures Decode(data).Remove? ==>
              var w := WithWorksheet(old(s.worksheets), chat);
              var items := Items(w[chat]);
              var index := Decode(data).index;
              0 <= index < |items| && NoBlankUpTo(w[chat], index) ==>
                && reply == Some(RemovedReply(w[chat][index + 1]))
                && s.worksheets[chat] == RemoveListed(w[chat], index)
                && Items(s.worksheets[chat]) == items[..index] + items[index + 1..]
  {
    match Decode(data)
    case Ignore =>
      reply := None;
    case Malformed =>
      reply := Some(FailedReply);
    case Remove(index) =>
      var text := RemoveAt(s, chat, index);
      reply := Some(text);
  }
}
