/**
 * One worksheet as the bot sees it: the values of its column A, top to
 * bottom (`ws.col_values(1)`). Row 0 is the header; the data rows follow in
 * storage order. A row is blank when `row.strip()` is empty.
 */
module Rows {
  import opened PyText
  import opened Filtering

  /** The header the bot writes into cell A1 of every worksheet it creates. */
  const Header: string := "Артикул"

  /**
   * `not row.strip()`: the row is whitespace only (`BlankIffStripEmpty`
   * shows the two agree).
   */
  predicate IsBlank(row: string) {
    AllSpace(row)
  }

  lemma BlankIffStripEmpty(row: string)
    ensures IsBlank(row) <==> Strip(row) == ""
  {
    StripEmptyIffAllSpace(row);
  }

  /** A row `get_items` keeps: `row.strip()` is not empty. */
  predicate Listed(row: string) {
    !IsBlank(row)
  }

  /**
   * `get_items`: the column after its header row, without its blank rows
   * (`[item for item in col[1:] if item.strip()]`).
   */
  function Items(column: seq<string>): (r: seq<string>)
    ensures |column| <= 1 ==> r == []
    ensures forall k :: 0 <= k < |r| ==> !IsBlank(r[k])
  {
    if |column| == 0 then [] else Filter(column[1..], Listed)
  }

  /** An entry is listed exactly when it is a non-blank data row. */
  lemma ItemsMembers(column: seq<string>, x: string)
    requires |column| >= 1
    ensures x in Items(column) <==> x in column[1..] && !IsBlank(x)
  {
    FilterMembers(column[1..], Listed, x);
  }

  /** The listing of a worksheet whose data rows hold no blank is exactly those rows. */
  lemma ItemsOfNoBlanks(column: seq<string>)
    requires |column| >= 1
    requires NoBlankData(column)
    ensures Items(column) == column[1..]
  {
    FilterAllKept(column[1..], Listed);
  }

  /** The header is not blank, and a worksheet holding only the header lists nothing. */
  lemma ItemsOfNewWorksheet()
    ensures !IsBlank(Header) && NoEmptyCell([Header])
    ensures Items([Header]) == []
  {
    assert !IsSpace(Header[0]);
  }

  /** No data row (below the header) is blank. */
  predicate NoBlankData(column: seq<string>) {
    forall k :: 1 <= k < |column| ==> !IsBlank(column[k])
  }

  /** No cell of the column is empty, so every row of it holds a value. */
  predicate NoEmptyCell(column: seq<string>) {
    forall k :: 0 <= k < |column| ==> column[k] != ""
  }

  /** The start of the run of empty cells that ends at row `j`. */
  function EmptyRunStart(column: seq<string>, j: nat): (m: nat)
    requires j <= |column|
    ensures m <= j
    ensures forall k :: m <= k < j ==> column[k] == ""
    ensures m == 0 || column[m - 1] != ""
  {
    if j > 0 && column[j - 1] == "" then EmptyRunStart(column, j - 1) else j
  }

  /**
   * `ws.col_values(1)` as gspread returns it: the stored column without its
   * trailing empty cells. Only empty cells are dropped, and the result ends
   * in a value.
   */
  function TrimTrailingEmpty(column: seq<string>): (r: seq<string>)
    ensures |r| <= |column| && r == column[..|r|]
    ensures forall k :: |r| <= k < |column| ==> column[k] == ""
    ensures r == [] || r[|r| - 1] != ""
  {
    column[..EmptyRunStart(column, |column|)]
  }

  /** A column without empty cells is read back whole. */
  lemma TrimOfNoEmptyCell(column: seq<string>)
    requires NoEmptyCell(column)
    ensures TrimTrailingEmpty(column) == column
  {
    if |column| > 0 {
      assert EmptyRunStart(column, |column|) == |column|;
    }
  }

  /** Trailing empty cells are blank, so dropping them changes nothing that is listed. */
  lemma ItemsIgnoreTrailingEmpty(column: seq<string>)
    ensures Items(TrimTrailingEmpty(column)) == Items(column)
  {
    var r := TrimTrailingEmpty(column);
    if |r| >= 1 {
      var tail := column[|r|..];
      assert column == r + tail;
      assert column[1..] == r[1..] + tail;
      FilterConcat(r[1..], tail, Listed);
      assert forall k :: 0 <= k < |tail| ==> tail[k] == "";
      FilterNoneKept(tail, Listed);
    } else if |column| >= 1 {
      assert forall k :: 0 <= k < |column[1..]| ==> column[1..][k] == "";
      FilterNoneKept(column[1..], Listed);
    }
  }

  /** Appending a non-empty value and clearing keep every cell filled. */
  lemma NoEmptyCellKept(column: seq<string>, x: string)
    requires NoEmptyCell(column)
    ensures x != "" ==> NoEmptyCell(column + [x])
    ensures NoEmptyCell(ClearData(column))
  {
    assert forall k :: 0 <= k < |column| ==> (column + [x])[k] == column[k];
  }

  /** Deleting rows keeps every cell filled. */
  lemma NoEmptyCellAfterDelete(column: seq<string>, start: nat, end: nat)
    requires NoEmptyCell(column)
    requires 1 <= start <= end
    ensures NoEmptyCell(DeleteRows(column, start, end))
  {
    var r := DeleteRows(column, start, end);
    var lo, hi := Min(start - 1, |column|), Min(end, |column|);
    var front, back := column[..lo], column[hi..];
    assert r == front + back;
    forall k | 0 <= k < |r| ensures r[k] != "" {
      if k < |front| {
        assert r[k] == front[k] == column[k];
      } else {
        assert r[k] == back[k - |front|] == column[hi + k - |front|];
      }
    }
  }

  /** `update('A1', value)` on the values of a column: the first row becomes `value`. */
  function SetA1(column: seq<string>, value: string): (r: seq<string>)
    ensures |r| == if |column| == 0 then 1 else |column|
    ensures r[0] == value && forall k :: 1 <= k < |column| ==> r[k] == column[k]
  {
    if |column| == 0 then [value] else column[0 := value]
  }

  /** `append_row([x])`: the listing gains `x` at its end, unless `x` is blank. */
  lemma ItemsAfterAppend(column: seq<string>, x: string)
    requires |column| >= 1
    ensures Items(column + [x]) == Items(column) + (if IsBlank(x) then [] else [x])
  {
    assert (column + [x])[1..] == column[1..] + [x];
    FilterConcat(column[1..], [x], Listed);
    FilterCons(x, [], Listed);
    assert [x] + [] == [x];
  }

  /**
   * `delete_rows(start, end)` on the values of a column: the 1-based rows
   * `start` to `end` (both included) go, and the rows below move up. Rows past
   * the last stored value hold nothing, so deleting them changes no value.
   */
  function DeleteRows(column: seq<string>, start: nat, end: nat): (r: seq<string>)
    requires 1 <= start <= end
    ensures var lo, hi := Min(start - 1, |column|), Min(end, |column|);
            |r| == |column| - (hi - lo) && r[..lo] == column[..lo] && r[lo..] == column[hi..]
    ensures 2 <= start && |column| >= 1 ==> |r| >= 1 && r[0] == column[0]
  {
    var lo, hi := Min(start - 1, |column|), Min(end, |column|);
    column[..lo] + column[hi..]
  }

  function Min(a: int, b: int): int {
    if a <= b then a else b
  }

  /**
   * `clear_list`: with `rows = len(col)`, `delete_rows(2, rows)` runs only
   * when `rows > 1`. At most the first row is left, and nothing below it.
   */
  function ClearData(column: seq<string>): (r: seq<string>)
    ensures r == column[..Min(1, |column|)]
    ensures Items(r) == []
  {
    if |column| > 1 then DeleteRows(column, 2, |column|) else column
  }

  /** Clearing an already cleared worksheet changes nothing. */
  lemma ClearIdempotent(column: seq<string>)
    ensures ClearData(ClearData(column)) == ClearData(column)
  {
  }

  /**
   * `remove_item_from_sheet(chat, index)` as the bot runs it, `delete_rows(index + 2)`,
   * after the bounds check against `get_items`: when the data rows hold no blank,
   * the deleted row is the listed entry `index`, and the listing afterwards is the
   * old listing without that entry.
   */
  lemma RemoveWithoutBlanks(column: seq<string>, index: nat)
    requires NoBlankData(column)
    requires index < |Items(column)|
    ensures column[index + 1] == Items(column)[index]
    ensures Items(DeleteRows(column, index + 2, index + 2))
            == Items(column)[..index] + Items(column)[index + 1..]
  {
    ItemsOfNoBlanks(column);
    var r := DeleteRows(column, index + 2, index + 2);
    assert r == column[..index + 1] + column[index + 2..];
    assert r[1..] == column[1..][..index] + column[1..][index + 1..];
    FilterAllKept(r[1..], Listed);
  }

  /**
   * A blank data row above the chosen entry: the worksheet `[Header, " ", "Болт"]`
   * lists `["Болт"]`, index 0 passes the bounds check, and `delete_rows(2)`
   * removes the blank row, so the entry the reply reports as removed stays listed.
   */
  lemma RemoveWithBlankMissesEntry()
    ensures var column := [Header, " ", "Болт"];
            && Items(column) == ["Болт"]
            && Items(DeleteRows(column, 2, 2)) == ["Болт"]
  {
    var column := [Header, " ", "Болт"];
    var bolt := "Болт";
    assert IsBlank(" ") && !IsSpace(bolt[0]);
    assert column[1..] == [" "] + ["Болт"];
    FilterCons(" ", ["Болт"], Listed);
    FilterCons("Болт", [], Listed);
    assert DeleteRows(column, 2, 2) == [Header, "Болт"];
    assert DeleteRows(column, 2, 2)[1..] == ["Болт"];
  }

  /**
   * Removal by list position done right: delete the raw row the `index`-th
   * listed entry came from. The listing loses exactly that entry.
   */
  function RemoveListed(column: seq<string>, index: nat): (r: seq<string>)
    requires index < |Items(column)|
    ensures |r| == |column| - 1 && r[0] == column[0]
    ensures Items(r) == Items(column)[..index] + Items(column)[index + 1..]
  {
    var s := column[1..];
    var p := NthKept(s, Listed, index);
    RemovingNthKept(s, Listed, index);
    var r := [column[0]] + (s[..p] + s[p + 1..]);
    assert r[1..] == s[..p] + s[p + 1..];
    r
  }

  /** None of the data rows from the first down to the `index`-th listed position is blank. */
  predicate NoBlankUpTo(column: seq<string>, index: nat) {
    forall k :: 1 <= k <= index + 1 && k < |column| ==> !IsBlank(column[k])
  }

  /**
   * The corrected removal and the bot's `delete_rows(index + 2)` aim at the
   * same row exactly when no data row down to raw row `index + 1` is blank.
   */
  lemma RemoveListedMatchesRawRow(column: seq<string>, index: nat)
    requires index < |Items(column)|
    ensures 1 + NthKept(column[1..], Listed, index) == index + 1 <==> NoBlankUpTo(column, index)
  {
    var s := column[1..];
    NthKeptIsIdentity(s, Listed, index);
    assert forall k :: 0 <= k <= index ==> s[k] == column[k + 1];
  }

  /**
   * With no blank data row down to raw row `index + 1`, `delete_rows(index + 2)`
   * gives the worksheet the corrected removal gives, and the row it deletes is
   * the listed entry `index`.
   */
  lemma RawRowRemovalIsCorrect(column: seq<string>, index: nat)
    requires index < |Items(column)|
    requires NoBlankUpTo(column, index)
    ensures Items(column)[index] == column[index + 1]
    ensures RemoveListed(column, index) == DeleteRows(column, index + 2, index + 2)
    ensures Items(DeleteRows(column, index + 2, index + 2))
            == Items(column)[..index] + Items(column)[index + 1..]
  {
    var s := column[1..];
    RemoveListedMatchesRawRow(column, index);
    NthKeptSpec(s, Listed, index);
    assert NthKept(s, Listed, index) == index;
    assert RemoveListed(column, index) == [column[0]] + (s[..index] + s[index + 1..]);
    DeleteOneRow(column, index);
  }

  /** Deleting sheet row `index + 2` drops raw row `index + 1` and keeps the header. */
  lemma DeleteOneRow(column: seq<string>, index: nat)
    requires index + 2 <= |column|
    ensures DeleteRows(column, index + 2, index + 2)
            == [column[0]] + (column[1..][..index] + column[1..][index + 1..])
  {
    var s := column[1..];
    assert DeleteRows(column, index + 2, index + 2) == column[..index + 1] + column[index + 2..];
    assert [column[0]] + s[..index] == column[..index + 1];
    assert s[index + 1..] == column[index + 2..];
  }
}
