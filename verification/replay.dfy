/**
 * Replay of the action stack onto the original image (`apply_actions_on_image`).
 * The function pops the last action of a copy of the stack, replays the rest
 * recursively, then applies the popped action: a left fold from the original image,
 * oldest action first.
 */
module Replay {
  import opened Wrappers
  import opened ImageLib
  import opened Selection

  const FILTER: string := "filter"
  const ENHANCE: string := "enhance"

  /** One entry of the action stack: `{'operation', 'type', 'selectedData'}`. */
  datatype Action = Action(operation: Operation, opType: string, selectedData: Option<SelectedData>)

  /**
   * The one way replay fails: an 'enhance' action whose operation is a bare filter
   * name, on which `operation['enhancement']` raises.
   */
  datatype Error = NotAnEnhancement

  /** Replaying the action cannot raise. */
  predicate WellFormed(a: Action) {
    a.opType == ENHANCE ==> a.operation.EnhancementSpec?
  }

  predicate WellFormedStack(actionStack: seq<Action>) {
    forall i | 0 <= i < |actionStack| :: WellFormed(actionStack[i])
  }

  /**
   * Applies one action to the image the earlier actions produced: a filter, an
   * enhancement, or nothing for any other type, always within the action's zone.
   */
  function ApplyAction(lib: Library, im: Image, a: Action): (r: Result<Image, Error>)
    ensures r.Success? <==> WellFormed(a)
    ensures a.opType != FILTER && a.opType != ENHANCE ==> r == Success(im)
    // Both primitives work on the zone and mode selected on the image they receive.
    ensures a.opType == FILTER ==>
              var s := SelectionZone(lib, im, a.selectedData);
              r == Success(lib.applyFilter(im, s.zone, a.operation, s.mode))
    ensures a.opType == ENHANCE && a.operation.EnhancementSpec? ==>
              var s := SelectionZone(lib, im, a.selectedData);
              r == Success(lib.applyEnhancement(im, s.zone, a.operation.enhancement,
                                                a.operation.enhancementFactor, s.mode))
  {
    var s := SelectionZone(lib, im, a.selectedData);
    if a.opType == FILTER then
      Success(lib.applyFilter(im, s.zone, a.operation, s.mode))
    else if a.opType == ENHANCE then
      match a.operation
      case EnhancementSpec(enhancement, factor) =>
        Success(lib.applyEnhancement(im, s.zone, enhancement, factor, s.mode))
      case FilterName(_) => Failure(NotAnEnhancement)
    else
      Success(im)
  }

  /** Applies `a` to the outcome of the earlier actions; a failure propagates. */
  function Then(lib: Library, prev: Result<Image, Error>, a: Action): Result<Image, Error> {
    match prev
    case Failure(e) => Failure(e)
    case Success(im) => ApplyAction(lib, im, a)
  }

  /**
   * `apply_actions_on_image`. The session id, file name and image signature form the
   * cache key and are only passed down; the result is the stack replayed onto `original`,
   * and it fails exactly when some action on the stack is not well formed.
   */
  function ApplyActionsOnImage(lib: Library, original: Image, sessionId: string,
                               actionStack: seq<Action>, filename: string,
                               imageSignature: string): (r: Result<Image, Error>)
    ensures actionStack == [] ==> r == Success(original)
    ensures r.Success? <==> WellFormedStack(actionStack)
    decreases |actionStack|
  {
    if |actionStack| == 0 then
      Success(original)
    else
      var lastAction := actionStack[|actionStack| - 1];
      var prev := ApplyActionsOnImage(lib, original, sessionId, actionStack[..|actionStack| - 1],
                                      filename, imageSignature);
      Then(lib, prev, lastAction)
  }

  /** Reference definition: the left fold of ApplyAction over the actions, oldest first, from `im`. */
  function ReplayFrom(lib: Library, im: Image, actions: seq<Action>): Result<Image, Error>
    decreases |actions|
  {
    if actions == [] then
      Success(im)
    else
      match ApplyAction(lib, im, actions[0])
      case Failure(e) => Failure(e)
      case Success(next) => ReplayFrom(lib, next, actions[1..])
  }

  /** Continues a replay outcome with further actions. */
  function ThenAll(lib: Library, prev: Result<Image, Error>, actions: seq<Action>): Result<Image, Error> {
    match prev
    case Failure(e) => Failure(e)
    case Success(im) => ReplayFrom(lib, im, actions)
  }

  /** Pushing an action and replaying is replaying and then applying that action. */
  lemma ReplaySnoc(lib: Library, original: Image, sessionId: string, actionStack: seq<Action>,
                   a: Action, filename: string, imageSignature: string)
    ensures ApplyActionsOnImage(lib, original, sessionId, actionStack + [a], filename, imageSignature)
         == Then(lib, ApplyActionsOnImage(lib, original, sessionId, actionStack, filename, imageSignature), a)
  {
    assert (actionStack + [a])[..|actionStack|] == actionStack;
  }

  lemma {:induction false} ReplayFromSnoc(lib: Library, im: Image, actions: seq<Action>, a: Action)
    ensures ReplayFrom(lib, im, actions + [a]) == Then(lib, ReplayFrom(lib, im, actions), a)
    decreases |actions|
  {
    if actions != [] {
      assert (actions + [a])[0] == actions[0];
      assert (actions + [a])[1..] == actions[1..] + [a];
      match ApplyAction(lib, im, actions[0])
      case Failure(_) =>
      case Success(next) => ReplayFromSnoc(lib, next, actions[1..], a);
    }
  }

  /** The pop-and-recurse replay is the left fold of the stack from the original image. */
  lemma {:induction false} ReplayIsLeftFold(lib: Library, original: Image, sessionId: string,
                                            actionStack: seq<Action>, filename: string,
                                            imageSignature: string)
    ensures ApplyActionsOnImage(lib, original, sessionId, actionStack, filename, imageSignature)
         == ReplayFrom(lib, original, actionStack)
    decreases |actionStack|
  {
    if actionStack != [] {
      var init := actionStack[..|actionStack| - 1];
      var last := actionStack[|actionStack| - 1];
      assert actionStack == init + [last];
      ReplayIsLeftFold(lib, original, sessionId, init, filename, imageSignature);
      ReplayFromSnoc(lib, original, init, last);
    }
  }

  lemma {:induction false} ReplayFromAppend(lib: Library, im: Image, s: seq<Action>, t: seq<Action>)
    ensures ReplayFrom(lib, im, s + t) == ThenAll(lib, ReplayFrom(lib, im, s), t)
    decreases |s|
  {
    if s != [] {
      assert (s + t)[0] == s[0];
      assert (s + t)[1..] == s[1..] + t;
      match ApplyAction(lib, im, s[0])
      case Failure(_) =>
      case Success(next) => ReplayFromAppend(lib, next, s[1..], t);
    } else {
      assert s + t == t;
    }
  }

  /** Replaying a longer stack continues from the image of its prefix: earlier edits are never redone differently. */
  lemma ReplayAppend(lib: Library, original: Image, sessionId: string, s: seq<Action>,
                     t: seq<Action>, filename: string, imageSignature: string)
    ensures ApplyActionsOnImage(lib, original, sessionId, s + t, filename, imageSignature)
         == ThenAll(lib, ApplyActionsOnImage(lib, original, sessionId, s, filename, imageSignature), t)
  {
    ReplayIsLeftFold(lib, original, sessionId, s + t, filename, imageSignature);
    ReplayIsLeftFold(lib, original, sessionId, s, filename, imageSignature);
    ReplayFromAppend(lib, original, s, t);
  }

  /**
   * Memoisation is sound: the result depends on the stack alone, not on the session id,
   * file name or image signature that complete the cache key.
   */
  lemma {:induction false} ReplayIgnoresCacheKey(lib: Library, original: Image, actionStack: seq<Action>,
                                                 sessionId1: string, filename1: string, imageSignature1: string,
                                                 sessionId2: string, filename2: string, imageSignature2: string)
    ensures ApplyActionsOnImage(lib, original, sessionId1, actionStack, filename1, imageSignature1)
         == ApplyActionsOnImage(lib, original, sessionId2, actionStack, filename2, imageSignature2)
    decreases |actionStack|
  {
    if actionStack != [] {
      ReplayIgnoresCacheKey(lib, original, actionStack[..|actionStack| - 1],
                            sessionId1, filename1, imageSignature1,
                            sessionId2, filename2, imageSignature2);
    }
  }
}
