/**
 * The linear undo/redo history (src/App/Commands/CommandStack.h and
 * CommandStack.cpp): two stacks of commands over one model.  `Do` runs a new
 * command and drops the redo history; `Undo` and `Redo` move the top command
 * from one stack to the other, running its `Undo` or `Execute` on the way.
 */
module CommandStacks {
  import opened Models
  import opened Commands

  /** The top of a non-empty stack. */
  function Top(stack: seq<Command>): Command
    requires stack != []
  {
    stack[|stack| - 1]
  }

  /** The stack without its top. */
  function Pop(stack: seq<Command>): (rest: seq<Command>)
    requires stack != []
    ensures |rest| == |stack| - 1 && rest + [Top(stack)] == stack
  {
    stack[..|stack| - 1]
  }

  /** Pushing then popping gives back the stack, and the pushed command is the top. */
  lemma PushPop(stack: seq<Command>, c: Command)
    ensures Top(stack + [c]) == c && Pop(stack + [c]) == stack
  {
    assert (stack + [c])[..|stack|] == stack;
  }

  class CommandStack {
    const model: Model
    var undoStack: seq<Command>
    var redoStack: seq<Command>

    /** `CommandStack(model)`: both histories empty; the histories are not part of the model. */
    constructor(model: Model)
      ensures this.model == model && this !in model.Repr() && undoStack == [] && redoStack == []
    {
      this.model := model;
      undoStack := [];
      redoStack := [];
    }

    function UndoCount(): nat
      reads this
    {
      |undoStack|
    }

    function RedoCount(): nat
      reads this
    {
      |redoStack|
    }

    function CanUndo(): (b: bool)
      reads this
      ensures b <==> UndoCount() > 0
    {
      undoStack != []
    }

    function CanRedo(): (b: bool)
      reads this
      ensures b <==> RedoCount() > 0
    {
      redoStack != []
    }

    /**
     * `Do<CommandT>(args...)`: the freshly built command runs once, the redo
     * history is dropped and the command, with what it captured, goes on top
     * of the undo history.
     */
    method Do(c: Command) returns (ok: bool)
      requires model.Valid() && this !in model.Repr() && IsFresh(c) && Executable(c, model.State())
      modifies this, model.Repr()
      ensures model.Valid() && ok
      ensures redoStack == [] && undoStack != [] && Pop(undoStack) == old(undoStack)
      ensures Executed(model, c, Top(undoStack), old(model.State()), model.State())
    {
      var history := undoStack;
      var done := Execute(model, c);
      PushPop(history, done);
      redoStack := [];
      undoStack := history + [done];
      ok := true;
    }

    /**
     * Pops the top undo command, runs its `Undo` and pushes it on the redo
     * stack; with nothing to undo it reports false and changes nothing.
     */
    method Undo() returns (ok: bool)
      requires model.Valid() && this !in model.Repr()
      requires undoStack != [] ==> Undoable(Top(undoStack), model.State())
      modifies this, model.Repr()
      ensures model.Valid()
      ensures ok <==> old(undoStack) != []
      ensures !ok ==> unchanged(this) && unchanged(model.Repr())
      ensures ok ==> undoStack == Pop(old(undoStack)) && redoStack != [] && Pop(redoStack) == old(redoStack)
      ensures ok ==> Undone(model, old(Top(undoStack)), Top(redoStack), old(model.State()), model.State())
      ensures UndoCount() + RedoCount() == old(UndoCount() + RedoCount())
    {
      if undoStack == [] {
        return false;
      }
      var c, redo := Top(undoStack), redoStack;
      undoStack := Pop(undoStack);
      var undone := Commands.Undo(model, c);
      PushPop(redo, undone);
      redoStack := redo + [undone];
      return true;
    }

    /**
     * Pops the top redo command, runs its `Execute` again and pushes it on the
     * undo stack; with nothing to redo it reports false and changes nothing.
     */
    method Redo() returns (ok: bool)
      requires model.Valid() && this !in model.Repr()
      requires redoStack != [] ==> Executable(Top(redoStack), model.State())
      modifies this, model.Repr()
      ensures model.Valid()
      ensures ok <==> old(redoStack) != []
      ensures !ok ==> unchanged(this) && unchanged(model.Repr())
      ensures ok ==> redoStack == Pop(old(redoStack)) && undoStack != [] && Pop(undoStack) == old(undoStack)
      ensures ok ==> Executed(model, old(Top(redoStack)), Top(undoStack), old(model.State()), model.State())
      ensures UndoCount() + RedoCount() == old(UndoCount() + RedoCount())
    {
      if redoStack == [] {
        return false;
      }
      var c, history := Top(redoStack), undoStack;
      redoStack := Pop(redoStack);
      var done := Execute(model, c);
      PushPop(history, done);
      undoStack := history + [done];
      return true;
    }

    /**
     * `Undo` followed by `Redo`: the redo history is back to what it was, the
     * undo history has its old depth with everything below the top as before,
     * and the top is the old top undone and then executed again, through some
     * intermediate model.
     */
    method UndoThenRedo() returns (ok: bool)
      requires model.Valid() && this !in model.Repr() && undoStack != []
      requires Undoable(Top(undoStack), model.State()) && Executable(Top(undoStack), model.State())
      modifies this, model.Repr()
      ensures model.Valid() && ok
      ensures redoStack == old(redoStack)
      ensures |undoStack| == old(|undoStack|) && Pop(undoStack) == Pop(old(undoStack))
      ensures exists c1, s1 :: Undone(model, old(Top(undoStack)), c1, old(model.State()), s1)
                               && Executed(model, c1, Top(undoStack), s1, model.State())
    {
      ghost var c, s := Top(undoStack), model.State();
      var undone := Undo();
      ghost var c1, s1 := Top(redoStack), model.State();
      UndoKeepsExecutable(model, c, c1, s, s1);
      var redone := Redo();
      ok := undone && redone;
      assert Undone(model, c, c1, s, s1) && Executed(model, c1, Top(undoStack), s1, model.State());
    }

    /** Drops both histories; the model is not touched. */
    method Clear()
      modifies this
      ensures undoStack == [] && redoStack == []
    {
      undoStack := [];
      redoStack := [];
    }
  }
}
