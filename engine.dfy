/**
  The warehouse's live state as one object: the transaction journal, the
  stock table and the undo and redo stacks, which the program keeps as
  process-wide variables. Each method changes them in place, step by step as
  the program does, and is proved to agree with the value-level
  specification in Ledger, Coordinator and History.
*/
module Engine {
  import opened Wrappers
  import opened Tables
  import opened Ledger
  import opened History
  import opened Coordinator

  class Warehouse {
    var journal: Journal
    var stock: Stock
    var undoStack: seq<Books>
    var redoStack: seq<Books>

    /** The object's state as a session value. */
    function State(): Session
      reads this
    {
      Session(Books(journal, stock), undoStack, redoStack)
    }

    /** Start-up: the tables as loaded from storage, with no history. */
    constructor (loadedJournal: Journal, loadedStock: Stock)
      ensures journal == loadedJournal && stock == loadedStock
      ensures undoStack == [] && redoStack == []
    {
      journal := loadedJournal;
      stock := loadedStock;
      undoStack := [];
      redoStack := [];
    }

    /**
      update_inventory: moves `quantity` of `item` in the stock table. The
      item's first row is updated in place, or a row is appended for an unseen
      item on inbound; an outbound on an unseen item or one that would go
      below zero is refused before anything is written.
    */
    method UpdateInventory(item: string, direction: Direction, quantity: int, now: Timestamp)
      returns (outcome: Outcome<LedgerError>)
      modifies this`stock
      ensures var r := Apply(old(stock), item, direction, quantity, now);
        && (r.Ok? ==> outcome == Pass && stock == r.value)
        && (r.Err? ==> outcome == Fail(r.error) && stock == old(stock))
    {
      var found := IndexOf(stock, item);
      if found.Some? {
        var idx := found.value;
        var current := stock[idx].quantity;
        var newStock;
        if direction.Inbound? {
          newStock := current + quantity;
        } else {
          newStock := current - quantity;
          if newStock < 0 {
            return Fail(NegativeStock);
          }
        }
        stock := stock[idx := stock[idx].(quantity := newStock, updated := now)];
      } else {
        if direction.Inbound? {
          stock := stock + [StockRow(now, item, quantity)];
        } else {
          return Fail(UnknownItem);
        }
      }
      outcome := Pass;
    }

    /**
      add_inbound: saves the live books for undo and clears redo, then
      records the movement; inbound is always recorded.
    */
    method AddInbound(item: string, counterparty: string, operator: string, remarks: string,
                      quantity: int, imagePath: string, now: Timestamp)
      returns (status: Status)
      modifies this
      ensures undoStack == old(undoStack) + [Books(old(journal), old(stock))] && redoStack == []
      ensures var step := Add(old(State()), Inbound, item, counterparty, operator, remarks, quantity, imagePath, now);
        State() == step.after && status == step.status
      ensures status == Recorded
    {
      undoStack := undoStack + [Books(journal, stock)];
      redoStack := [];
      var record := RecordFor(Inbound, item, counterparty, operator, remarks, imagePath, now);
      var outcome := UpdateInventory(item, Inbound, quantity, now);
      if outcome.Fail? {
        // The ledger never refuses an inbound movement.
        assert false;
      }
      journal := journal + [record];
      status := Recorded;
    }

    /**
      add_outbound: saves the live books for undo and clears redo, then
      records the movement if the ledger accepts it. A refused movement
      leaves both tables as they were but keeps the saved copy on the undo
      stack and the redo stack empty.
    */
    method AddOutbound(item: string, counterparty: string, operator: string, remarks: string,
                       quantity: int, imagePath: string, now: Timestamp)
      returns (status: Status)
      modifies this
      ensures undoStack == old(undoStack) + [Books(old(journal), old(stock))] && redoStack == []
      ensures var step := Add(old(State()), Outbound, item, counterparty, operator, remarks, quantity, imagePath, now);
        State() == step.after && status == step.status
      ensures status.Rejected? ==> journal == old(journal) && stock == old(stock)
    {
      undoStack := undoStack + [Books(journal, stock)];
      redoStack := [];
      var outcome := UpdateInventory(item, Outbound, quantity, now);
      if outcome.Fail? {
        return Rejected(outcome.error);
      }
      var record := RecordFor(Outbound, item, counterparty, operator, remarks, imagePath, now);
      journal := journal + [record];
      status := Recorded;
    }

    /**
      undo_action: fails, changing nothing, when there is no history;
      otherwise moves the live books to the redo stack and makes the top of
      the undo stack live. Returns the journal now live.
    */
    method Undo() returns (done: bool, view: Journal)
      modifies this
      ensures done <==> old(undoStack) != []
      ensures !done ==> State() == old(State())
      ensures State() == History.Undo(old(State()))
      ensures view == journal
    {
      if undoStack == [] {
        return false, journal;
      }
      redoStack := redoStack + [Books(journal, stock)];
      var state := undoStack[|undoStack| - 1];
      undoStack := undoStack[..|undoStack| - 1];
      journal, stock := state.journal, state.stock;
      return true, journal;
    }

    /**
      redo_action: fails, changing nothing, when there is nothing to redo;
      otherwise moves the live books to the undo stack and makes the top of
      the redo stack live. Returns the journal now live.
    */
    method Redo() returns (done: bool, view: Journal)
      modifies this
      ensures done <==> old(redoStack) != []
      ensures !done ==> State() == old(State())
      ensures State() == History.Redo(old(State()))
      ensures view == journal
    {
      if redoStack == [] {
        return false, journal;
      }
      undoStack := undoStack + [Books(journal, stock)];
      var state := redoStack[|redoStack| - 1];
      redoStack := redoStack[..|redoStack| - 1];
      journal, stock := state.journal, state.stock;
      return true, journal;
    }
  }

  /** A caller's view: undo straight after redo, through the object, restores its whole state. */
  method UndoRedoClient(w: Warehouse)
    modifies w
    ensures old(w.undoStack) != [] ==> w.State() == old(w.State())
  {
    var undone, _ := w.Undo();
    if undone {
      RedoAfterUndo(old(w.State()));
      var redone, _ := w.Redo();
    }
  }
}
