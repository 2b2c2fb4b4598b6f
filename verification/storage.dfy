/**
 * The session storage record and the two operations that change its action stack in
 * place: `add_action_to_stack` and `undo_last_action`. Undo is gated by the click
 * counter of the Undo button: a click is honoured once, when its count exceeds the
 * count stored with the last honoured click.
 */
module SessionStorage {
  import opened Wrappers
  import opened ImageLib
  import opened Replay

  /** The storage record as it travels through the hidden page element (the JSON object). */
  datatype StorageRecord = StorageRecord(
    filename: string,
    imageSignature: string,
    actionStack: seq<Action>,
    undoClickCount: int)

  /** The record after appending one action to its stack. */
  function PushAction(s: StorageRecord, a: Action): (r: StorageRecord)
    ensures |r.actionStack| == |s.actionStack| + 1
    ensures r.actionStack[..|s.actionStack|] == s.actionStack && r.actionStack[|s.actionStack|] == a
    ensures r.filename == s.filename && r.imageSignature == s.imageSignature
    ensures r.undoClickCount == s.undoClickCount
  {
    s.(actionStack := s.actionStack + [a])
  }

  /** The record after one undo request carrying the Undo button's click count (None before any click). */
  function UndoStep(s: StorageRecord, nClicks: Option<int>): (r: StorageRecord)
    // Undo never touches which image is being edited.
    ensures r.filename == s.filename && r.imageSignature == s.imageSignature
    // No click yet: the counter is reset and the stack left alone.
    ensures nClicks.None? ==> r.actionStack == s.actionStack && r.undoClickCount == 0
    // The stack never grows, shrinks by at most one, and what remains is a prefix.
    ensures |s.actionStack| - 1 <= |r.actionStack| <= |s.actionStack|
    ensures r.actionStack == s.actionStack[..|r.actionStack|]
    // The last action is popped exactly for a fresh click on a non-empty stack ...
    ensures |r.actionStack| < |s.actionStack| <==>
              nClicks.Some? && |s.actionStack| > 0 && nClicks.value > s.undoClickCount
    // ... and then the click is recorded; otherwise the record comes back as it was.
    ensures |r.actionStack| < |s.actionStack| ==> r.undoClickCount == nClicks.value
    ensures nClicks.Some? && |r.actionStack| == |s.actionStack| ==> r == s
  {
    if nClicks.None? then
      s.(undoClickCount := 0)
    else if |s.actionStack| > 0 && nClicks.value > s.undoClickCount then
      s.(actionStack := s.actionStack[..|s.actionStack| - 1], undoClickCount := nClicks.value)
    else
      s
  }

  /** The stored storage object, updated in place as the source updates its dict. */
  class Storage {
    var filename: string
    var imageSignature: string
    var actionStack: seq<Action>
    var undoClickCount: int

    /** The storage object parsed from its record (`json.loads`). */
    constructor (rec: StorageRecord)
      ensures Record() == rec
    {
      filename := rec.filename;
      imageSignature := rec.imageSignature;
      actionStack := rec.actionStack;
      undoClickCount := rec.undoClickCount;
    }

    /** The record this object serialises to (`json.dumps`). */
    function Record(): (r: StorageRecord)
      reads this
      ensures r.filename == filename && r.imageSignature == imageSignature
      ensures r.actionStack == actionStack && r.undoClickCount == undoClickCount
    {
      StorageRecord(filename, imageSignature, actionStack, undoClickCount)
    }

    /** `add_action_to_stack`: appends `{operation, type, selectedData}` to the stack in place. */
    method AddActionToStack(operation: Operation, opType: string, selectedData: Option<SelectedData>)
      modifies this`actionStack
      ensures actionStack == old(actionStack) + [Action(operation, opType, selectedData)]
      ensures Record() == PushAction(old(Record()), Action(operation, opType, selectedData))
    {
      var newAction := Action(operation, opType, selectedData);
      actionStack := actionStack + [newAction];
    }

    /** `undo_last_action`: pops the last action for a fresh click and records the click count. */
    method UndoLastAction(nClicks: Option<int>)
      modifies this`actionStack, this`undoClickCount
      ensures Record() == UndoStep(old(Record()), nClicks)
    {
      if nClicks.None? {
        undoClickCount := 0;
      } else if |actionStack| > 0 && nClicks.value > undoClickCount {
        actionStack := actionStack[..|actionStack| - 1];
        undoClickCount := nClicks.value;
      }
    }
  }

  /** A click delivered twice pops only once: the recorded count gates the repeat. */
  lemma UndoIdempotent(s: StorageRecord, nClicks: Option<int>)
    ensures UndoStep(UndoStep(s, nClicks), nClicks) == UndoStep(s, nClicks)
  {
  }

  /** A fresh undo click right after a push takes exactly that action back off the stack. */
  lemma UndoRevertsPush(s: StorageRecord, a: Action, nClicks: int)
    requires nClicks > s.undoClickCount
    ensures UndoStep(PushAction(s, a), Some(nClicks)).actionStack == s.actionStack
  {
    assert (s.actionStack + [a])[..|s.actionStack|] == s.actionStack;
  }

  /** Undo keeps a stack well formed, so the undone stack still replays without error. */
  lemma UndoKeepsWellFormed(s: StorageRecord, nClicks: Option<int>)
    requires WellFormedStack(s.actionStack)
    ensures WellFormedStack(UndoStep(s, nClicks).actionStack)
  {
  }

  /** The record after `k` successive undo clicks, counted up from the stored count. */
  function UndoMany(s: StorageRecord, k: nat): StorageRecord {
    if k == 0 then s
    else
      var prev := UndoMany(s, k - 1);
      UndoStep(prev, Some(prev.undoClickCount + 1))
  }

  /** With clicks counted up from the stored count, undo clicks pop actions one by one, newest first. */
  lemma {:induction false} UndoClicksPopInOrder(s: StorageRecord, k: nat)
    requires k <= |s.actionStack|
    ensures UndoMany(s, k).actionStack == s.actionStack[..|s.actionStack| - k]
    ensures UndoMany(s, k).undoClickCount == s.undoClickCount + k
  {
    if k > 0 {
      UndoClicksPopInOrder(s, k - 1);
      var prev := UndoMany(s, k - 1);
      assert prev.actionStack[..|prev.actionStack| - 1] == s.actionStack[..|s.actionStack| - k];
    }
  }
}
