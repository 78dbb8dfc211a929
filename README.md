# Warehouse inventory core (toy-wms) in Dafny

This project models the inventory-consistency engine of a small warehouse
bookkeeping program. The program keeps four pieces of live state:

- a stock table with one row per item: last change time, item, quantity in stock;
- a transaction journal with one record per recorded movement: time, direction, item,
  counterparty, operator, remark;
- an undo stack and a redo stack of full (journal, stock) copies.

Inbound (入库) and outbound (出库) requests go through the stock ledger
(`update_inventory`) and, when accepted, append a journal record. Undo and
redo swap the live pair with the top of a stack.

Layout, one module per component:

- `wrappers.dfy` (`Wrappers`): Option, Result and Outcome.
- `tables.dfy` (`Tables`): rows, records, the first-match item lookup and the table invariants.
- `ledger.dfy` (`Ledger`): `Apply`, the value-level specification of `update_inventory`.
  It comes with lemmas on quantities, the frame, unique keys and non-negativity.
  It also states the model-level invariant "stock = start + accepted inbound − accepted outbound".
- `history.dfy` (`History`): the undo/redo state machine on a `Session` value.
- `coordinator.dfy` (`Coordinator`): `Add`, the value-level specification of `add_inbound` / `add_outbound`.
  It includes a worked example of a refused request followed by undo and redo.
- `filter.dfy` (`Filter`): `filter_dataframe`, with the match predicate left abstract.
- `engine.dfy` (`Engine`): class `Warehouse`. Its four fields are the program's four globals.
  Its methods update them in place, in the program's order of steps.
  Each method is proved equal to the value-level specification (`State() == Add(old(State()), …).after` and so on).

Tables are sequences of datatype rows. The program's `.copy()` deep copies
are therefore plain values. Timestamps are parameters instead of clock reads.

Where the documented behaviour and the code disagree, the model follows the code:

- A request pushes its undo snapshot and clears the redo stack before the ledger validates anything.
  A refused outbound therefore still leaves one extra undo entry, and nothing pops it
  (core.py:122-124, 155-157). Take 10 widgets in, 4 out, and 100 out refused. The documented
  behaviour has the next undo give 10 widgets and 1 record. In the code, the first undo after the
  refused outbound leaves 6 widgets and 2 records, and only a second undo gives 10 widgets.
  `Coordinator.WidgetExample` proves the sequence as the code runs it.
- The quantity is never checked for positivity. Any integer is passed to the ledger.
- Journal records have no quantity column. The "stock equals inbound minus outbound" invariant is
  stated over the ledger's movements (`Ledger.ReplayIsNet`), not over journal records.
- The first matching row is the one updated (core.py:81). Unique item keys are an invariant the
  operations preserve (`Ledger.ApplyKeepsUnique`), not something the program checks.

## Model

| member | source | states |
|---|---|---|
| `Tables.IndexOf` | core.py:80-81 | the result is the position of the first row for the item, and None exactly when no row holds the item |
| `Ledger.Apply` | core.py:72-98 | an outbound on an unseen item is refused with UnknownItem; an outbound on a present item whose stock minus the quantity is below zero is refused with NegativeStock; these are the only refusals, and inbound is never refused |
| `Ledger.ApplyMovesQuantity` | core.py:80-94 | an accepted movement changes the item's quantity by exactly +quantity (inbound) or −quantity (outbound); every other item's quantity is unchanged; an accepted outbound never leaves the item below zero |
| `Ledger.ApplyTouchesOnlyItem` | core.py:80-94 | after an accepted movement the items keep their order and every row other than the item's first row is identical, a later duplicate row of the same item included; an unseen item gets exactly one new row (now, item, quantity) at the end; a present item's row gets timestamp now |
| `Ledger.ApplyKeepsUnique` | core.py:80-96 | an accepted movement keeps item keys unique |
| `Ledger.ApplyKeepsNonNegative` | core.py:84-90 | with all stored quantities ≥ 0 and quantity ≥ 0, an accepted movement keeps all quantities ≥ 0 |
| `Ledger.ReplayIsNet` | core.py:72-98 | after any sequence of requests, each item's quantity is its starting quantity plus accepted inbound minus accepted outbound |
| `Ledger.FromEmptyIsNet` | core.py:72-98 | from an empty table, each item's quantity is exactly accepted inbound minus accepted outbound |
| `History.Checkpoint` | core.py:123-124 | the live books are unchanged, a copy of them is the new undo top above the old stack, and redo is empty |
| `History.Undo` | core.py:189-193 | with an empty undo stack nothing changes; otherwise the old undo stack is the new undo stack with the new live books on top (the top was popped and made live), and the redo stack gains the old live books on top |
| `History.Redo` | core.py:204-208 | with an empty redo stack nothing changes; otherwise the old redo stack is the new redo stack with the new live books on top (the top was popped and made live), and the undo stack gains the old live books on top |
| `History.RedoAfterUndo` | core.py:183-211 | a redo right after a successful undo restores journal, stock and both stacks exactly |
| `History.UndoAfterRedo` | core.py:183-211 | an undo right after a successful redo restores journal, stock and both stacks exactly |
| `History.UndoMovesBooks` | core.py:191-193 | undo only moves (journal, stock) pairs between the live slot and the stacks: the multiset of held pairs is unchanged |
| `History.RedoMovesBooks` | core.py:206-208 | redo only moves (journal, stock) pairs between the live slot and the stacks: the multiset of held pairs is unchanged |
| `History.HistoryKeepsSound` | core.py:183-211 | if every held pair has unique keys and no negative quantity, so does every pair after an undo or a redo |
| `History.RunKeepsDepth` | core.py:189-208 | under any sequence of undos and redos, undo depth + redo depth is constant |
| `History.UndoTimesDepth` | core.py:189-193 | each of up to undo-depth undos moves exactly one entry from the undo stack to the redo stack |
| `History.RedoTimesAfterUndoTimes` | core.py:183-211 | k undos followed by k redos (k ≤ undo depth) return to the very same session |
| `History.RedoAfterCheckpoint` | core.py:124 | after a request's checkpoint, redo has nothing to restore and changes nothing |
| `History.UndoAfterCheckpoint` | core.py:123-124 | an undo after a checkpoint brings back the checkpointed books and the old undo stack, with the books it displaced as the only redo entry |
| `Coordinator.StoredRemark` | core.py:129-131 | without an attachment the remark is kept as given; with one, the remark is a prefix, exactly " \|\| image:" follows it, and the path is the suffix |
| `Coordinator.Add` | core.py:115-178 | the pre-call books are always pushed on undo and redo is emptied; the request is refused exactly when the ledger refuses it, with the ledger's error, and then the books are unchanged; when recorded, the stock is the ledger's result and the journal gains exactly one record at the end with the given direction, item, counterparty, operator, remark and time, earlier records unchanged; inbound is always recorded |
| `Coordinator.UndoAfterAdd` | core.py:122-124 | an undo right after any request, recorded or refused, restores the pre-request books and undo stack; a refused request therefore costs one undo step that changes no table |
| `Coordinator.RedoAfterAdd` | core.py:124 | after any request, redo fails and changes nothing |
| `Coordinator.AddKeepsSound` | core.py:115-178 | a request with quantity ≥ 0 keeps unique keys and non-negative quantities in the live books and on both stacks |
| `Coordinator.WidgetExample` | core.py:115-211 | 10 widgets in, 4 out, 100 out refused, then undo, undo, redo: 10; 6 with 2 records; refused with NegativeStock and books unchanged; first undo still 6; second undo 10 with 1 record; redo 6 with 2 records |
| `Filter.KeepMatching` | core.py:262-264 | the kept rows are rows of the input that match the keyword; every matching row is kept as many times as it occurs in the input, and no other row is kept |
| `Filter.KeepMatchingIsSubsequence` | core.py:263 | the kept rows appear in the input's order |
| `Filter.FilterRows` | core.py:259-264 | a blank (whitespace-only or empty) keyword returns the table unchanged; otherwise the result is an order-preserving subsequence holding exactly the matching rows, each as many times as it occurs in the input |
| `Engine.Warehouse.constructor` | core.py:23-41 | the tables are as loaded, and both stacks are empty |
| `Engine.Warehouse.UpdateInventory` | core.py:72-98 | in-place update of the stock table equal to `Ledger.Apply`; on refusal the table is unchanged and the ledger's error is returned |
| `Engine.Warehouse.AddInbound` | core.py:115-146 | the undo stack gains the pre-call (journal, stock) and redo is emptied; the whole new state equals `Coordinator.Add`; inbound is always recorded |
| `Engine.Warehouse.AddOutbound` | core.py:148-178 | the undo stack gains the pre-call (journal, stock) and redo is emptied; the whole new state equals `Coordinator.Add`; on refusal journal and stock are unchanged |
| `Engine.Warehouse.Undo` | core.py:183-196 | fails exactly when the undo stack is empty, and then changes nothing; otherwise the new state equals `History.Undo`; returns the live journal |
| `Engine.Warehouse.Redo` | core.py:198-211 | fails exactly when the redo stack is empty, and then changes nothing; otherwise the new state equals `History.Redo`; returns the live journal |
| `Engine.UndoRedoClient` | core.py:183-211 | through the object, an undo followed by a redo leaves the whole state as it was whenever the undo stack was non-empty |

## Left out

- Filter.FilterRows: which rows match a keyword is an abstract predicate. The code lower-cases each cell and the keyword with Unicode case mapping and searches each cell with the keyword as a regular expression (core.py:262-263). Only the structure is proved: blank keyword, order-preserving subsequence, exactly the matching rows with their multiplicities. A keyword that is not a valid regular expression makes the search raise an exception in the program; the model does not capture that failure.
- Archiving before each request (`log_files`, core.py:46-58) copies files with a wall-clock timestamp name. It changes no modelled state and is left out.
- Persistence (`save_transactions`, `save_inventory`, core.py:63-67) and start-up loading (core.py:11-35) are file I/O. Saving is a no-op here; the constructor takes the loaded tables as parameters.
- Attachment storage (`process_image`, core.py:103-113) writes bytes to disk. It is modelled by its returned path, a parameter where "" means no attachment.
- The wholesale CSV imports (`load_transactions_file`, `load_inventory_file`, core.py:216-254) are raw file overwrites and are not modelled.
- The display helpers (`update_transactions_display`, `update_inventory_display`, `refresh_*`, core.py:266-276) only return the live tables or call the filter.
- The user interface (core.py:281-352) is not modelled.
- Clock reads: `add_inbound` / `add_outbound` and `update_inventory` each read the clock (core.py:79, 126, 159). The model takes one timestamp `now` per request and uses it for both the journal record and the stock row.
- `int(quantity)` (core.py:128, 161) is modelled by taking an integer. A failing conversion, which raises after the undo push and redo clear, is not modelled.
- The status messages are modelled as the values `Recorded` / `Rejected(error)` and `Pass` / `Fail(error)`, not as the program's message strings.
- Column dtypes of the data frames (for example a quantity read back as a float after a CSV round trip) are not modelled. Quantities are unbounded integers, as Python's `int` is.
