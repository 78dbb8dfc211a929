/**
  The undo/redo manager as a value: the live books and the two stacks of
  earlier books (the top of a stack is its last element, as with the
  program's list append/pop). The Warehouse class performs these steps in
  place and is proved to agree with them.
*/
module History {
  import opened Tables

  datatype Session = Session(current: Books, undo: seq<Books>, redo: seq<Books>)

  /**
    What every inbound or outbound request does before it validates anything:
    push a copy of the live books on the undo stack and empty the redo stack.
  */
  function Checkpoint(s: Session): (r: Session)
    ensures r.current == s.current && r.redo == []
    ensures |r.undo| == |s.undo| + 1 && r.undo[..|s.undo|] == s.undo && r.undo[|s.undo|] == s.current
  {
    Session(s.current, s.undo + [s.current], [])
  }

  /**
    Undo: with an empty undo stack nothing changes; otherwise the live books
    go on the redo stack and the top of the undo stack becomes live.
  */
  function Undo(s: Session): (r: Session)
    ensures s.undo == [] ==> r == s
    ensures s.undo != [] ==> r.undo + [r.current] == s.undo && r.redo == s.redo + [s.current]
  {
    if s.undo == [] then s
    else Session(s.undo[|s.undo| - 1], s.undo[..|s.undo| - 1], s.redo + [s.current])
  }

  /** Redo: the mirror of Undo, with the two stacks exchanged. */
  function Redo(s: Session): (r: Session)
    ensures s.redo == [] ==> r == s
    ensures s.redo != [] ==> r.redo + [r.current] == s.redo && r.undo == s.undo + [s.current]
  {
    if s.redo == [] then s
    else Session(s.redo[|s.redo| - 1], s.undo + [s.current], s.redo[..|s.redo| - 1])
  }

  /** Every set of books the session holds: the live ones, then the undo and redo stacks. */
  function Held(s: Session): seq<Books>
  {
    [s.current] + s.undo + s.redo
  }

  /** A redo straight after a successful undo restores the session exactly. */
  lemma RedoAfterUndo(s: Session)
    requires s.undo != []
    ensures Redo(Undo(s)) == s
  {
    assert s.undo[..|s.undo| - 1] + [s.undo[|s.undo| - 1]] == s.undo;
  }

  /** An undo straight after a successful redo restores the session exactly. */
  lemma UndoAfterRedo(s: Session)
    requires s.redo != []
    ensures Undo(Redo(s)) == s
  {
    assert s.redo[..|s.redo| - 1] + [s.redo[|s.redo| - 1]] == s.redo;
  }

  /**
    Undo never creates, copies or drops a set of books: it only moves them
    between the live slot and the stacks.
  */
  lemma UndoMovesBooks(s: Session)
    ensures multiset(Held(Undo(s))) == multiset(Held(s))
  {
    if s.undo != [] {
      var rest, top := s.undo[..|s.undo| - 1], s.undo[|s.undo| - 1];
      assert s.undo == rest + [top];
      calc {
        multiset(Held(Undo(s)));
        multiset([top] + rest + (s.redo + [s.current]));
        multiset([top]) + multiset(rest) + multiset(s.redo) + multiset([s.current]);
        multiset([s.current]) + multiset(rest + [top]) + multiset(s.redo);
        multiset(Held(s));
      }
    }
  }

  /** Redo, likewise, only moves sets of books between the live slot and the stacks. */
  lemma RedoMovesBooks(s: Session)
    ensures multiset(Held(Redo(s))) == multiset(Held(s))
  {
    if s.redo != [] {
      var rest, top := s.redo[..|s.redo| - 1], s.redo[|s.redo| - 1];
      assert s.redo == rest + [top];
      calc {
        multiset(Held(Redo(s)));
        multiset([top] + (s.undo + [s.current]) + rest);
        multiset([top]) + multiset(s.undo) + multiset([s.current]) + multiset(rest);
        multiset([s.current]) + multiset(s.undo) + multiset(rest + [top]);
        multiset(Held(s));
      }
    }
  }

  /** Undo and redo keep every held set of books sound when all of them were. */
  lemma {:induction false} HistoryKeepsSound(s: Session)
    requires forall b :: b in Held(s) ==> Sound(b)
    ensures forall b :: b in Held(Undo(s)) ==> Sound(b)
    ensures forall b :: b in Held(Redo(s)) ==> Sound(b)
  {
    UndoMovesBooks(s);
    RedoMovesBooks(s);
    forall b | b in Held(Undo(s)) ensures Sound(b) {
      assert b in multiset(Held(Undo(s)));
    }
    forall b | b in Held(Redo(s)) ensures Sound(b) {
      assert b in multiset(Held(Redo(s)));
    }
  }

  /** The two history commands. */
  datatype Command = UndoCommand | RedoCommand

  /** The session after issuing `commands` in order, with no transaction in between. */
  function Run(s: Session, commands: seq<Command>): Session
    decreases |commands|
  {
    if commands == [] then s
    else
      var next := if commands[0].UndoCommand? then Undo(s) else Redo(s);
      Run(next, commands[1..])
  }

  /** Under undo and redo alone the combined depth of the two stacks never changes. */
  lemma {:induction false} RunKeepsDepth(s: Session, commands: seq<Command>)
    ensures |Run(s, commands).undo| + |Run(s, commands).redo| == |s.undo| + |s.redo|
    decreases |commands|
  {
    if commands != [] {
      var next := if commands[0].UndoCommand? then Undo(s) else Redo(s);
      assert |next.undo| + |next.redo| == |s.undo| + |s.redo|;
      RunKeepsDepth(next, commands[1..]);
    }
  }

  /** `k` undos in a row. */
  function UndoTimes(s: Session, k: nat): Session
  {
    if k == 0 then s else Undo(UndoTimes(s, k - 1))
  }

  /** `k` redos in a row. */
  function RedoTimes(s: Session, k: nat): Session
    decreases k
  {
    if k == 0 then s else RedoTimes(Redo(s), k - 1)
  }

  /** Each of up to |undo| undos moves exactly one set of books from the undo to the redo stack. */
  lemma {:induction false} UndoTimesDepth(s: Session, k: nat)
    requires k <= |s.undo|
    ensures |UndoTimes(s, k).undo| == |s.undo| - k
    ensures |UndoTimes(s, k).redo| == |s.redo| + k
  {
    if k > 0 {
      UndoTimesDepth(s, k - 1);
    }
  }

  /** Undoing `k` steps and then redoing `k` steps comes back to the very same session. */
  lemma {:induction false} RedoTimesAfterUndoTimes(s: Session, k: nat)
    requires k <= |s.undo|
    ensures RedoTimes(UndoTimes(s, k), k) == s
  {
    if k > 0 {
      var before := UndoTimes(s, k - 1);
      UndoTimesDepth(s, k - 1);
      RedoAfterUndo(before);
      calc {
        RedoTimes(UndoTimes(s, k), k);
        RedoTimes(Redo(Undo(before)), k - 1);
        RedoTimes(before, k - 1);
        { RedoTimesAfterUndoTimes(s, k - 1); }
        s;
      }
    }
  }

  /** After a checkpoint redo has nothing to restore and changes nothing. */
  lemma RedoAfterCheckpoint(s: Session)
    ensures Redo(Checkpoint(s)) == Checkpoint(s)
  {
  }

  /**
    An undo right after a checkpoint makes the checkpointed books live again
    and returns the undo stack to what it was; the redo stack then holds just
    the books that were live before the undo.
  */
  lemma UndoAfterCheckpoint(s: Session, live: Books)
    ensures var c := Checkpoint(s);
      Undo(Session(live, c.undo, c.redo)) == Session(s.current, s.undo, [live])
  {
    assert (s.undo + [s.current])[..|s.undo|] == s.undo;
  }
}
