/**
 * The edit request (`update_graph_interactive_image`): the callback fired by an upload,
 * an Undo click or a Run Operation click. It parses the stored record, runs undo first,
 * then either takes the new-file branch or pushes the requested filter and enhancement
 * and replays the resulting stack. The framework keeps the old stored record when the
 * callback raises.
 */
module EditRequest {
  import opened Wrappers
  import opened ImageLib
  import opened Replay
  import opened SessionStorage

  /** The callback's inputs and states that the edit logic reads. */
  datatype Request = Request(
    undoClicks: Option<int>,
    selectedData: Option<SelectedData>,
    filters: Option<string>,
    enhance: Option<string>,
    enhancementFactor: Factor,
    newFilename: Option<string>)

  /** What the callback renders: the edited image and the record written back to the page. */
  datatype Response = Response(image: Image, storage: StorageRecord)

  /**
   * Why the callback raises: in the new-file branch the image variable is never bound,
   * or the replay itself fails.
   */
  datatype EditError = ImageUnbound | ReplayFailed(cause: Replay.Error)

  /** Python truthiness of an optional string: neither None nor empty. */
  predicate Truthy(o: Option<string>) {
    o.Some? && o.value != ""
  }

  /** The upload holds a file name other than the stored one. */
  predicate NewFileUploaded(stored: StorageRecord, req: Request) {
    Truthy(req.newFilename) && req.newFilename.value != stored.filename
  }

  function FilterAction(req: Request): Action
    requires Truthy(req.filters)
  {
    Action(FilterName(req.filters.value), FILTER, req.selectedData)
  }

  function EnhanceAction(req: Request): Action
    requires Truthy(req.enhance)
  {
    Action(EnhancementSpec(req.enhance.value, req.enhancementFactor), ENHANCE, req.selectedData)
  }

  /**
   * The actions one request pushes: a filter if one is selected, then an enhancement if
   * one is selected, both on the same selection.
   */
  function RequestedActions(req: Request): (acts: seq<Action>)
    ensures |acts| == (if Truthy(req.filters) then 1 else 0) + (if Truthy(req.enhance) then 1 else 0)
    ensures Truthy(req.filters) ==> acts[0] == FilterAction(req)
    ensures Truthy(req.enhance) ==> acts[|acts| - 1] == EnhanceAction(req)
    ensures forall i | 0 <= i < |acts| :: acts[i].selectedData == req.selectedData
    ensures WellFormedStack(acts)
  {
    (if Truthy(req.filters) then [FilterAction(req)] else [])
    + (if Truthy(req.enhance) then [EnhanceAction(req)] else [])
  }

  /** The outcome of one request on the stored record, as a function of its inputs. */
  function HandleEdit(lib: Library, original: Image, stored: StorageRecord, req: Request,
                      sessionId: string): (r: Result<Response, EditError>)
    ensures NewFileUploaded(stored, req) ==> r == Failure(ImageUnbound)
    ensures r.Success? ==>
              && r.value.storage.filename == stored.filename
              && r.value.storage.imageSignature == stored.imageSignature
              && r.value.storage.actionStack
                   == UndoStep(stored, req.undoClicks).actionStack + RequestedActions(req)
              && r.value.storage.undoClickCount == UndoStep(stored, req.undoClicks).undoClickCount
    // The image shown is always the replay of the stack written back.
    ensures r.Success? ==>
              ApplyActionsOnImage(lib, original, sessionId, r.value.storage.actionStack,
                                  stored.filename, stored.imageSignature)
              == Success(r.value.image)
  {
    var undone := UndoStep(stored, req.undoClicks);
    if NewFileUploaded(stored, req) then
      Failure(ImageUnbound)
    else
      var updated := undone.(actionStack := undone.actionStack + RequestedActions(req));
      match ApplyActionsOnImage(lib, original, sessionId, updated.actionStack,
                                stored.filename, stored.imageSignature)
      case Failure(e) => Failure(ReplayFailed(e))
      case Success(im) => Success(Response(im, updated))
  }

  /**
   * `update_graph_interactive_image`: parses the record, undoes, then pushes and replays
   * step by step on the parsed storage object.
   */
  method UpdateGraphInteractiveImage(lib: Library, original: Image, stored: StorageRecord,
                                     req: Request, sessionId: string)
    returns (r: Result<Response, EditError>)
    ensures r == HandleEdit(lib, original, stored, req, sessionId)
  {
    var storage := new Storage(stored);
    var filename := storage.filename;
    var imageSignature := storage.imageSignature;

    storage.UndoLastAction(req.undoClicks);

    if Truthy(req.newFilename) && req.newFilename.value != filename {
      r := Failure(ImageUnbound);
    } else {
      if Truthy(req.filters) {
        storage.AddActionToStack(FilterName(req.filters.value), FILTER, req.selectedData);
      }
      if Truthy(req.enhance) {
        storage.AddActionToStack(EnhancementSpec(req.enhance.value, req.enhancementFactor),
                                 ENHANCE, req.selectedData);
      }
      ghost var undone := UndoStep(stored, req.undoClicks);
      assert storage.actionStack == undone.actionStack + RequestedActions(req);
      assert storage.Record() == undone.(actionStack := undone.actionStack + RequestedActions(req));
      var im := ApplyActionsOnImage(lib, original, sessionId, storage.actionStack,
                                    filename, imageSignature);
      match im {
        case Failure(e) => r := Failure(ReplayFailed(e));
        case Success(image) => r := Success(Response(image, storage.Record()));
      }
    }
  }

  /**
   * The record the page holds after the request. This is the web framework's behaviour,
   * not the callback's: a callback that raises leaves its outputs, and so the hidden
   * record, as they were.
   */
  function StoredAfter(stored: StorageRecord, r: Result<Response, EditError>): (after: StorageRecord)
    ensures r.Success? ==> after == r.value.storage
    ensures r.Failure? ==> after == stored
  {
    if r.Success? then r.value.storage else stored
  }

  /**
   * Once the upload field holds a file name other than the stored one, every request
   * raises and the stored record never changes again: Undo and Run stop having any effect.
   */
  lemma NewFileFreezesStorage(lib: Library, original: Image, stored: StorageRecord,
                              req: Request, sessionId: string)
    requires NewFileUploaded(stored, req)
    ensures HandleEdit(lib, original, stored, req, sessionId).Failure?
    ensures StoredAfter(stored, HandleEdit(lib, original, stored, req, sessionId)) == stored
  {
  }

  /**
   * An Undo click on an empty stack is not recorded, because the count is only stored
   * when an action is popped. The same click count, still above the stored one, then
   * pops an action on a later Run request: run `first` after an ignored Undo click,
   * then run `second` with the Undo button's count unchanged, and only `second` remains.
   */
  lemma {:induction false} IgnoredUndoClickPopsLaterAction(lib: Library, original: Image,
                                                           stored: StorageRecord, req1: Request,
                                                           req2: Request, sessionId: string)
    requires stored.actionStack == [] && !NewFileUploaded(stored, req1)
    requires req1.undoClicks.Some? && req1.undoClicks.value > stored.undoClickCount
    requires Truthy(req1.filters) && !Truthy(req1.enhance)
    requires req2.undoClicks == req1.undoClicks && !NewFileUploaded(stored, req2)
    requires Truthy(req2.filters) && !Truthy(req2.enhance)
    ensures var r1 := HandleEdit(lib, original, stored, req1, sessionId);
            && r1.Success?
            && r1.value.storage.actionStack == [FilterAction(req1)]
            && r1.value.storage.undoClickCount == stored.undoClickCount
            && var r2 := HandleEdit(lib, original, r1.value.storage, req2, sessionId);
               && r2.Success?
               && r2.value.storage.actionStack == [FilterAction(req2)]
  {
    EditSucceedsOnWellFormedStack(lib, original, stored, req1, sessionId);
    var r1 := HandleEdit(lib, original, stored, req1, sessionId);
    assert UndoStep(stored, req1.undoClicks) == stored;
    assert r1.value.storage.actionStack == [FilterAction(req1)];
    var mid := r1.value.storage;
    assert WellFormedStack(mid.actionStack);
    assert UndoStep(mid, req2.undoClicks).actionStack == [];
    EditSucceedsOnWellFormedStack(lib, original, mid, req2, sessionId);
  }

  /**
   * On a stack the editor built itself, a request fails only in the new-file branch,
   * and the stack it writes back is again one the editor can replay.
   */
  lemma EditSucceedsOnWellFormedStack(lib: Library, original: Image, stored: StorageRecord,
                                      req: Request, sessionId: string)
    requires WellFormedStack(stored.actionStack)
    ensures var r := HandleEdit(lib, original, stored, req, sessionId);
            && (r.Success? <==> !NewFileUploaded(stored, req))
            && WellFormedStack(StoredAfter(stored, r).actionStack)
  {
    var undone := UndoStep(stored, req.undoClicks);
    UndoKeepsWellFormed(stored, req.undoClicks);
    var acts := RequestedActions(req);
    var stack := undone.actionStack + acts;
    assert WellFormedStack(stack) by {
      forall i | 0 <= i < |stack| ensures WellFormed(stack[i]) {
        if i < |undone.actionStack| {
          assert stack[i] == undone.actionStack[i];
        } else {
          assert stack[i] == acts[i - |undone.actionStack|];
        }
      }
    }
  }

  /**
   * The new image is the image after undo with the requested filter and enhancement
   * applied on top, in that order: earlier edits are not recomputed differently.
   */
  lemma EditAppliesRequestedActions(lib: Library, original: Image, stored: StorageRecord,
                                    req: Request, sessionId: string)
    requires !NewFileUploaded(stored, req)
    ensures var undone := UndoStep(stored, req.undoClicks);
            var before := ApplyActionsOnImage(lib, original, sessionId, undone.actionStack,
                                              stored.filename, stored.imageSignature);
            var r := HandleEdit(lib, original, stored, req, sessionId);
            && (before.Success? ==> r.Success?)
            && (r.Success? ==> ThenAll(lib, before, RequestedActions(req)) == Success(r.value.image))
  {
    var undone := UndoStep(stored, req.undoClicks);
    ReplayAppend(lib, original, sessionId, undone.actionStack, RequestedActions(req),
                 stored.filename, stored.imageSignature);
    var stack := undone.actionStack + RequestedActions(req);
    var before := ApplyActionsOnImage(lib, original, sessionId, undone.actionStack,
                                      stored.filename, stored.imageSignature);
    if before.Success? {
      assert WellFormedStack(stack) by {
        forall i | 0 <= i < |stack| ensures WellFormed(stack[i]) {
          if i >= |undone.actionStack| {
            assert stack[i] == RequestedActions(req)[i - |undone.actionStack|];
          }
        }
      }
    }
  }

  /**
   * A fresh Undo click with nothing selected to run shows the image of the stack without
   * its last action, and writes that shorter stack back.
   */
  lemma UndoRequestShowsPreviousImage(lib: Library, original: Image, stored: StorageRecord,
                                      req: Request, sessionId: string)
    requires !NewFileUploaded(stored, req)
    requires !Truthy(req.filters) && !Truthy(req.enhance)
    requires req.undoClicks.Some? && req.undoClicks.value > stored.undoClickCount
    requires |stored.actionStack| > 0 && WellFormedStack(stored.actionStack)
    ensures var r := HandleEdit(lib, original, stored, req, sessionId);
            var previous := stored.actionStack[..|stored.actionStack| - 1];
            && r.Success?
            && r.value.storage.actionStack == previous
            && Success(r.value.image)
               == ApplyActionsOnImage(lib, original, sessionId, previous,
                                      stored.filename, stored.imageSignature)
  {
    EditSucceedsOnWellFormedStack(lib, original, stored, req, sessionId);
    var undone := UndoStep(stored, req.undoClicks);
    assert undone.actionStack + RequestedActions(req) == undone.actionStack;
  }
}
