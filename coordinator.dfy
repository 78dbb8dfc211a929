/**
  The transaction coordinator: one inbound or outbound request end to end
  (add_inbound / add_outbound). `Add` is the specification of a request as a
  step of the session; the Warehouse class performs it in place.
*/
module Coordinator {
  import opened Wrappers
  import opened Tables
  import opened Ledger
  import opened History

  /** What a request reports back: recorded, or refused by the ledger. */
  datatype Status = Recorded | Rejected(error: LedgerError)

  /** A session after a request, with the request's status. */
  datatype Step = Step(after: Session, status: Status)

  /**
    The remark as it is journalled: when an attachment was stored, its path is
    appended after " || image:"; without one the remark is kept as given.
  */
  function StoredRemark(remark: string, imagePath: string): (r: string)
    ensures imagePath == "" ==> r == remark
    ensures imagePath != "" ==>
      && |r| == |remark| + |" || image:"| + |imagePath|
      && r[..|remark|] == remark
      && r[|remark|..|remark| + |" || image:"|] == " || image:"
      && r[|r| - |imagePath|..] == imagePath
  {
    if imagePath == "" then remark else remark + " || image:" + imagePath
  }

  /** The journal record a recorded request appends. */
  function RecordFor(direction: Direction, item: string, counterparty: string, operator: string,
                     remark: string, imagePath: string, now: Timestamp): Record
  {
    Record(now, direction, item, counterparty, operator, StoredRemark(remark, imagePath))
  }

  /**
    One request: the live books are pushed on the undo stack and the redo
    stack is emptied before the ledger sees the movement, whatever the ledger
    then decides. If the ledger accepts, its new stock table becomes live and
    one record is appended to the journal; if it refuses, the live books stay
    as they were and the pushed copy stays on the undo stack.
  */
  function Add(s: Session, direction: Direction, item: string, counterparty: string, operator: string,
               remark: string, quantity: int, imagePath: string, now: Timestamp): (r: Step)
    ensures r.after.undo == s.undo + [s.current] && r.after.redo == []
    ensures r.status.Rejected? <==> Apply(s.current.stock, item, direction, quantity, now).Err?
    ensures r.status.Rejected? ==>
      r.status.error == Apply(s.current.stock, item, direction, quantity, now).error
      && r.after.current == s.current
    ensures r.status.Recorded? ==>
      && r.after.current.stock == Apply(s.current.stock, item, direction, quantity, now).value
      && |r.after.current.journal| == |s.current.journal| + 1
      && r.after.current.journal[..|s.current.journal|] == s.current.journal
      && r.after.current.journal[|s.current.journal|]
           == RecordFor(direction, item, counterparty, operator, remark, imagePath, now)
    ensures direction.Inbound? ==> r.status == Recorded
  {
    var c := Checkpoint(s);
    match Apply(s.current.stock, item, direction, quantity, now)
    case Err(e) => Step(c, Rejected(e))
    case Ok(stock) =>
      var record := RecordFor(direction, item, counterparty, operator, remark, imagePath, now);
      Step(Session(Books(s.current.journal + [record], stock), c.undo, c.redo), Recorded)
  }

  /**
    An undo right after a request, recorded or not, brings back the books from
    before the request and the undo stack as it was; the redo stack then holds
    the books the request left live. A refused request therefore costs one
    undo step that changes no table.
  */
  lemma UndoAfterAdd(s: Session, direction: Direction, item: string, counterparty: string, operator: string,
                     remark: string, quantity: int, imagePath: string, now: Timestamp)
    ensures var step := Add(s, direction, item, counterparty, operator, remark, quantity, imagePath, now);
      Undo(step.after) == Session(s.current, s.undo, [step.after.current])
  {
    var step := Add(s, direction, item, counterparty, operator, remark, quantity, imagePath, now);
    UndoAfterCheckpoint(s, step.after.current);
  }

  /** After any request there is nothing to redo. */
  lemma RedoAfterAdd(s: Session, direction: Direction, item: string, counterparty: string, operator: string,
                     remark: string, quantity: int, imagePath: string, now: Timestamp)
    ensures var step := Add(s, direction, item, counterparty, operator, remark, quantity, imagePath, now);
      Redo(step.after) == step.after
  {
  }

  /**
    A request for a non-negative quantity keeps every held set of books sound:
    unique items and no negative quantity, live and on both stacks.
  */
  lemma {:induction false} AddKeepsSound(s: Session, direction: Direction, item: string, counterparty: string,
                                         operator: string, remark: string, quantity: int, imagePath: string,
                                         now: Timestamp)
    requires forall b :: b in Held(s) ==> Sound(b)
    requires quantity >= 0
    ensures var step := Add(s, direction, item, counterparty, operator, remark, quantity, imagePath, now);
      forall b :: b in Held(step.after) ==> Sound(b)
  {
    var step := Add(s, direction, item, counterparty, operator, remark, quantity, imagePath, now);
    assert s.current in Held(s);
    ApplyKeepsUnique(s.current.stock, item, direction, quantity, now);
    ApplyKeepsNonNegative(s.current.stock, item, direction, quantity, now);
    assert Sound(step.after.current);
    forall b | b in Held(step.after) ensures Sound(b) {
      if b != step.after.current {
        assert b in s.undo + [s.current];
        assert b in Held(s);
      }
    }
  }

  /** A warehouse with empty tables and no history. */
  const Empty := Session(Books([], []), [], [])

  /**
    A worked example, as the program behaves: 10 widgets in,
    4 out, 100 out refused. Because the refused request left its snapshot on
    the undo stack, the first undo restores the very same books (6 widgets,
    2 records) and only a second undo goes back to 10 widgets and 1 record;
    a redo then brings back 6 widgets and 2 records.
  */
  lemma WidgetExample(cp: string, op: string)
    ensures
      var s1 := Add(Empty, Inbound, "widget", cp, op, "", 10, "", 1).after;
      var s2 := Add(s1, Outbound, "widget", cp, op, "", 4, "", 2).after;
      var s3 := Add(s2, Outbound, "widget", cp, op, "", 100, "", 3);
      var s4 := Undo(s3.after);
      var s5 := Undo(s4);
      var s6 := Redo(s5);
      && QuantityOf(s1.current.stock, "widget") == 10
      && QuantityOf(s2.current.stock, "widget") == 6 && |s2.current.journal| == 2
      && s3.status == Rejected(NegativeStock) && s3.after.current == s2.current
      && s4.current == s2.current
      && QuantityOf(s5.current.stock, "widget") == 10 && |s5.current.journal| == 1
      && QuantityOf(s6.current.stock, "widget") == 6 && |s6.current.journal| == 2
  {
    var s1 := Add(Empty, Inbound, "widget", cp, op, "", 10, "", 1).after;
    assert s1.current.stock == [StockRow(1, "widget", 10)];
    var s2 := Add(s1, Outbound, "widget", cp, op, "", 4, "", 2).after;
    assert s2.current.stock == [StockRow(2, "widget", 6)];
    var s3 := Add(s2, Outbound, "widget", cp, op, "", 100, "", 3);
    UndoAfterAdd(s2, Outbound, "widget", cp, op, "", 100, "", 3);
    var s4 := Undo(s3.after);
    assert s4.undo == s2.undo == [Empty.current, s1.current];
    var s5 := Undo(s4);
    assert s5.current == s1.current;
    assert s5.redo == [s2.current, s2.current];
  }
}
