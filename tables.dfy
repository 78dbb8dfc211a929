/**
  The two tables of the warehouse: the stock table (one row per item, with
  its current quantity and the time of its last change) and the transaction
  journal (one record per committed movement). Both are ordered sequences of
  rows, as the data frames are; a copy of a sequence is a value, so the deep
  copies the program takes for its undo history come for free.
*/
module Tables {
  import opened Wrappers

  /** A point in time, supplied by the caller instead of read from a clock. */
  type Timestamp = int

  /** The movement kinds: inbound ("入库") adds stock, outbound ("出库") removes it. */
  datatype Direction = Inbound | Outbound

  /** A row of the stock table: last change time, item, quantity in stock. */
  datatype StockRow = StockRow(updated: Timestamp, item: string, quantity: int)

  /** A journal record: time, direction, item, counterparty, operator, remark. */
  datatype Record = Record(
    time: Timestamp,
    direction: Direction,
    item: string,
    counterparty: string,
    operator: string,
    remark: string)

  type Stock = seq<StockRow>
  type Journal = seq<Record>

  /** The pair (journal, stock) that the undo and redo stacks hold. */
  datatype Books = Books(journal: Journal, stock: Stock)

  /** The signed change a movement makes to an item's quantity. */
  function Delta(direction: Direction, quantity: int): int
  {
    if direction == Inbound then quantity else -quantity
  }

  /**
    The position of the first row for `item`, or None when no row has it:
    the row the program selects with the first element of the index of all
    matching rows.
  */
  function IndexOf(stock: Stock, item: string): (r: Option<nat>)
    ensures r.Some? ==> r.value < |stock| && stock[r.value].item == item
    ensures r.Some? ==> forall j :: 0 <= j < r.value ==> stock[j].item != item
    ensures r.None? <==> forall j :: 0 <= j < |stock| ==> stock[j].item != item
    ensures r.Some? <==> Present(stock, item)
  {
    if stock == [] then None
    else if stock[0].item == item then Some(0)
    else
      match IndexOf(stock[1..], item)
      case Some(i) => Some(i + 1)
      case None => None
  }

  /** Whether some row of the stock table is for `item`. */
  predicate Present(stock: Stock, item: string)
  {
    exists j :: 0 <= j < |stock| && stock[j].item == item
  }

  /** The quantity in the first row for `item`; 0 when the item has no row. */
  function QuantityOf(stock: Stock, item: string): int
  {
    match IndexOf(stock, item)
    case Some(i) => stock[i].quantity
    case None => 0
  }

  /** No item has two rows. */
  predicate UniqueItems(stock: Stock)
  {
    forall i, j :: 0 <= i < j < |stock| ==> stock[i].item != stock[j].item
  }

  /** Every stored quantity is zero or more. */
  predicate NonNegative(stock: Stock)
  {
    forall i :: 0 <= i < |stock| ==> stock[i].quantity >= 0
  }

  /** The invariants a stock table is meant to keep: unique items, no negative quantity. */
  predicate Sound(books: Books)
  {
    UniqueItems(books.stock) && NonNegative(books.stock)
  }

  /** Two tables with the same items in the same order select the same row for every item. */
  lemma {:induction false} IndexOfSameItems(s: Stock, t: Stock, item: string)
    requires |s| == |t|
    requires forall j :: 0 <= j < |s| ==> s[j].item == t[j].item
    ensures IndexOf(s, item) == IndexOf(t, item)
  {
    if s != [] && s[0].item != item {
      IndexOfSameItems(s[1..], t[1..], item);
    }
  }

  /** Appending a row leaves every existing item's row where it was and can only add one. */
  lemma {:induction false} IndexOfAppend(s: Stock, row: StockRow, item: string)
    ensures IndexOf(s + [row], item) ==
      if IndexOf(s, item).Some? then IndexOf(s, item)
      else if row.item == item then Some(|s|)
      else None
  {
    if s != [] {
      assert (s + [row])[1..] == s[1..] + [row];
      if s[0].item != item {
        IndexOfAppend(s[1..], row, item);
      }
    }
  }
}
