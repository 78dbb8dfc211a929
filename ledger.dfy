/**
  The stock ledger: how one inbound or outbound movement changes the stock
  table (update_inventory). `Apply` is the specification of that change; the
  Warehouse class performs it in place and is proved to agree with it.
*/
module Ledger {
  import opened Wrappers
  import opened Tables

  /** The two ways the ledger refuses a movement. */
  datatype LedgerError =
    | NegativeStock  // an outbound would leave the item's stock below zero
    | UnknownItem    // an outbound names an item the stock table does not hold

  /**
    The stock table after moving `quantity` of `item` in `direction` at time
    `now`, or the reason the movement is refused. An item already present has
    its (first) row updated in place; an unseen item gets a new row at the end
    on inbound and is refused on outbound. The check for a negative result is
    made before anything is written, and exactly zero is allowed.
  */
  function Apply(stock: Stock, item: string, direction: Direction, quantity: int, now: Timestamp)
    : (r: Result<Stock, LedgerError>)
    ensures (r.Err? && r.error == UnknownItem) <==> direction.Outbound? && !Present(stock, item)
    ensures (r.Err? && r.error == NegativeStock) <==>
      direction.Outbound? && Present(stock, item) && QuantityOf(stock, item) - quantity < 0
    // Inbound is never refused.
    ensures r.Err? ==> direction.Outbound?
  {
    match IndexOf(stock, item)
    case Some(i) =>
      var next := stock[i].quantity + Delta(direction, quantity);
      if direction.Outbound? && next < 0 then Err(NegativeStock)
      else Ok(stock[i := stock[i].(quantity := next, updated := now)])
    case None =>
      if direction.Inbound? then Ok(stock + [StockRow(now, item, quantity)])
      else Err(UnknownItem)
  }

  /**
    An accepted movement changes the item's quantity by exactly its signed
    amount and leaves every other item's quantity as it was; an accepted
    outbound never leaves the item below zero.
  */
  lemma ApplyMovesQuantity(stock: Stock, item: string, direction: Direction, quantity: int, now: Timestamp)
    ensures var r := Apply(stock, item, direction, quantity, now);
      r.Ok? ==>
        && Present(r.value, item)
        && (forall other :: QuantityOf(r.value, other) ==
              QuantityOf(stock, other) + (if other == item then Delta(direction, quantity) else 0))
        && (direction.Outbound? ==> QuantityOf(r.value, item) >= 0)
  {
    var r := Apply(stock, item, direction, quantity, now);
    if r.Ok? {
      match IndexOf(stock, item)
      case Some(i) =>
        forall other ensures QuantityOf(r.value, other) ==
          QuantityOf(stock, other) + (if other == item then Delta(direction, quantity) else 0)
        {
          IndexOfSameItems(r.value, stock, other);
        }
        assert r.value[i].item == item;
      case None =>
        forall other ensures QuantityOf(r.value, other) ==
          QuantityOf(stock, other) + (if other == item then Delta(direction, quantity) else 0)
        {
          IndexOfAppend(stock, StockRow(now, item, quantity), other);
        }
        assert r.value[|stock|].item == item;
    }
  }

  /**
    An accepted movement touches only the item's (first) row: every other
    row, a later duplicate row of the same item included, is kept; the table keeps its
    items in order, grows by one row exactly when the item was unseen (the new
    row `(now, item, quantity)` at the end), and the item's row carries `now`.
  */
  lemma ApplyTouchesOnlyItem(stock: Stock, item: string, direction: Direction, quantity: int, now: Timestamp)
    ensures var r := Apply(stock, item, direction, quantity, now);
      r.Ok? ==>
        && |r.value| == |stock| + (if Present(stock, item) then 0 else 1)
        && (forall j :: 0 <= j < |stock| ==> r.value[j].item == stock[j].item)
        && (forall j :: 0 <= j < |stock| && (!Present(stock, item) || j != IndexOf(stock, item).value) ==>
              r.value[j] == stock[j])
        && (!Present(stock, item) ==> r.value == stock + [StockRow(now, item, quantity)])
        && (Present(stock, item) ==> r.value[IndexOf(stock, item).value].updated == now)
  {
  }

  /** A movement accepted by the ledger keeps item keys unique. */
  lemma ApplyKeepsUnique(stock: Stock, item: string, direction: Direction, quantity: int, now: Timestamp)
    requires UniqueItems(stock)
    ensures Apply(stock, item, direction, quantity, now).Ok? ==>
      UniqueItems(Apply(stock, item, direction, quantity, now).value)
  {
  }

  /**
    A movement of a non-negative quantity accepted by the ledger keeps every
    quantity non-negative: outbound is checked, inbound only adds.
  */
  lemma ApplyKeepsNonNegative(stock: Stock, item: string, direction: Direction, quantity: int, now: Timestamp)
    requires NonNegative(stock) && quantity >= 0
    ensures Apply(stock, item, direction, quantity, now).Ok? ==>
      NonNegative(Apply(stock, item, direction, quantity, now).value)
  {
  }

  /** One requested movement, as the coordinator passes it to the ledger. */
  datatype Movement = Movement(item: string, direction: Direction, quantity: int, time: Timestamp)

  /** The stock table after offering `moves` to the ledger one by one; refused ones change nothing. */
  function Replay(stock: Stock, moves: seq<Movement>): Stock
    decreases |moves|
  {
    if moves == [] then stock
    else
      var m := moves[0];
      match Apply(stock, m.item, m.direction, m.quantity, m.time)
      case Ok(next) => Replay(next, moves[1..])
      case Err(_) => Replay(stock, moves[1..])
  }

  /** The moves of `moves` that the ledger accepts, in order: those that get a journal record. */
  function Accepted(stock: Stock, moves: seq<Movement>): seq<Movement>
    decreases |moves|
  {
    if moves == [] then []
    else
      var m := moves[0];
      match Apply(stock, m.item, m.direction, m.quantity, m.time)
      case Ok(next) => [m] + Accepted(next, moves[1..])
      case Err(_) => Accepted(stock, moves[1..])
  }

  /** Inbound quantities minus outbound quantities of `item` over `moves`. */
  function Net(moves: seq<Movement>, item: string): int
  {
    if moves == [] then 0
    else
      (if moves[0].item == item then Delta(moves[0].direction, moves[0].quantity) else 0)
      + Net(moves[1..], item)
  }

  /**
    The stock table stays equal to its starting point plus the net of the
    accepted movements: after any sequence of requests, an item's quantity is
    its starting quantity plus its accepted inbound minus its accepted outbound.
  */
  lemma {:induction false} ReplayIsNet(stock: Stock, moves: seq<Movement>, item: string)
    ensures QuantityOf(Replay(stock, moves), item) == QuantityOf(stock, item) + Net(Accepted(stock, moves), item)
    decreases |moves|
  {
    if moves != [] {
      var m := moves[0];
      match Apply(stock, m.item, m.direction, m.quantity, m.time)
      case Ok(next) =>
        ApplyMovesQuantity(stock, m.item, m.direction, m.quantity, m.time);
        ReplayIsNet(next, moves[1..], item);
        assert ([m] + Accepted(next, moves[1..]))[1..] == Accepted(next, moves[1..]);
      case Err(_) =>
        ReplayIsNet(stock, moves[1..], item);
    }
  }

  /** Starting from an empty table, every quantity is exactly the net of the accepted movements. */
  lemma FromEmptyIsNet(moves: seq<Movement>, item: string)
    ensures QuantityOf(Replay([], moves), item) == Net(Accepted([], moves), item)
  {
    ReplayIsNet([], moves, item);
  }
}
