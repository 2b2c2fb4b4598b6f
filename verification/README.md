# Edit history of the interactive image editor

A Dafny model of the edit-history engine of the Dash image-processing app
(`simple.py`). A session's state is a storage record: the file name, an image
signature, a stack of actions and the last honoured Undo click count. Each edit
request does the following:

- it undoes first, popping the newest action when the Undo button's click count
  exceeds the stored one and the stack is not empty;
- it pushes the selected filter and then the selected enhancement, both on the
  same plot selection;
- it renders the image by replaying the whole stack onto the original image.

Replaying an action first computes its selection zone. A lasso selection gives a
mask. A rectangular plot range gives a pixel box whose y axis is flipped against
the image height. No selection gives the whole image.

Modules, one per component of `simple.py`:

- `Wrappers`: Option and Result.
- `ImageLib`: the image library as opaque types and function values. This covers
  PIL plus `apply_filters`, `apply_enhancements` and `generate_lasso_mask` from the
  `utils` module, which is not part of this model.
- `Selection`: selection-zone geometry.
- `Replay`: `apply_actions_on_image`, proved equal to a left fold over the stack.
- `SessionStorage`: the storage record and the `Storage` class. The class carries
  the in-place operations `add_action_to_stack` and `undo_last_action`.
- `EditRequest`: the request callback `update_graph_interactive_image`.

As written, the new-file branch of the callback never binds the image it renders.
The code that would load the uploaded file is commented out, so that branch raises.
The web framework then keeps the old stored record; the model says exactly this
(`ImageUnbound`), and it follows the code here. Uploading a file never replaces the
image. Worse, once the upload field holds a new name, every later request on that
page raises, so the stored record never changes again and Undo and Run stop having
any effect.

The click counter is only stored when an action is popped. An Undo click on an
empty stack is therefore not recorded. Its count stays above the stored one, so a
later Run request pops an action the user never undid. For example, Undo on an
empty stack, then Run 'blur', then Run 'sharpen' with the Undo count unchanged
leaves only 'sharpen' on the stack.

## Model

| member | source | states |
|---|---|---|
| `Selection.RectangleZone` | simple.py:293-299 | reading the box back through the y flip gives exactly the selected range. An ascending range gives left <= right and upper <= lower. A range inside the plot gives a box inside the image |
| `Selection.SelectionZone` | simple.py:286-303 | the mode is 'lasso' exactly for a mask zone. A lasso is used exactly when the selection has lasso points, and it wins over a range. Otherwise a range gives the flipped rectangle on the current image's height. With neither, the zone is the whole image `(0, 0, width, height)` |
| `Selection.RectangleZoneCoversSelection` | simple.py:293-299 | a pixel lies in the box exactly when its y-flipped position lies in the selected plot range |
| `Selection.RectangleZoneInjective` | simple.py:293-299 | distinct rectangular selections give distinct boxes on the same image |
| `Replay.ApplyAction` | simple.py:279-323 | a 'filter' action calls the filter primitive with its operation, and an 'enhance' action with an enhancement record calls the enhancement primitive with its enhancement and factor. Both use the zone and mode `SelectionZone` gives on the image the earlier actions produced. Applying fails exactly when an 'enhance' action's operation is not an enhancement record. A type other than 'filter' or 'enhance' leaves the image unchanged |
| `Replay.ApplyActionsOnImage` | simple.py:259-325 | an empty stack yields the original image. Replay succeeds exactly when every action on the stack is well formed |
| `Replay.ReplaySnoc` | simple.py:269-278 | replaying `s + [a]` is replaying `s` and then applying `a` |
| `Replay.ReplayIsLeftFold` | simple.py:263-278 | the pop-and-recurse replay equals the left fold of the stack from the original image, oldest action first |
| `Replay.ReplayAppend` | simple.py:263-325 | replaying `s + t` continues from the replay of `s` with the actions of `t` |
| `Replay.ReplayIgnoresCacheKey` | simple.py:258-262 | the result does not depend on the session id, file name or image signature in the cache key, so memoising on that key is sound |
| `SessionStorage.PushAction` | simple.py:232-238 | the stack grows by one, earlier entries are unchanged, the new last entry is the given action, and the other fields are unchanged |
| `SessionStorage.UndoStep` | simple.py:240-254 | file name and signature are unchanged. With no click the counter becomes 0 and the stack is untouched. The stack never grows, shrinks by at most one and stays a prefix. It shrinks exactly for a click count above the stored one on a non-empty stack, and that count is then recorded. Otherwise a click leaves the record unchanged |
| `SessionStorage.Storage.constructor` | simple.py:377-379 | the parsed storage object holds exactly the stored record |
| `SessionStorage.Storage.Record` | simple.py:462 | the serialised record carries the object's file name, signature, action stack and click count |
| `SessionStorage.Storage.AddActionToStack` | simple.py:217-238 | appends `{operation, type, selectedData}` to the stack in place and changes nothing else |
| `SessionStorage.Storage.UndoLastAction` | simple.py:240-254 | updates the object in place to the record `UndoStep` gives |
| `SessionStorage.UndoIdempotent` | simple.py:247-252 | the same click delivered twice pops only once |
| `SessionStorage.UndoRevertsPush` | simple.py:238-252 | a fresh Undo click right after a push restores the previous stack |
| `SessionStorage.UndoKeepsWellFormed` | simple.py:247-249 | undo keeps a replayable stack replayable |
| `SessionStorage.UndoClicksPopInOrder` | simple.py:240-254 | k successive clicks, each counting one up, pop the k newest actions, and the stored count rises by k |
| `EditRequest.RequestedActions` | simple.py:415-436 | a request pushes one action per truthy dropdown value, so at most two. The filter comes first and the enhancement last. All share the request's selection, and all are well formed |
| `EditRequest.HandleEdit` | simple.py:377-444 | a new file name raises (the image is unbound). Otherwise the stack written back is the undone stack followed by the requested actions, with file name and signature unchanged. The image returned is the replay of that stack |
| `EditRequest.UpdateGraphInteractiveImage` | simple.py:361-444 | the step-by-step callback on a parsed storage object (undo, push, replay) returns exactly `HandleEdit`'s outcome |
| `EditRequest.StoredAfter` | simple.py:450-465 | the record the page holds after a request: the written-back record on success, the old one when the callback raised. The second case is the web framework's behaviour, not code in simple.py |
| `EditRequest.NewFileFreezesStorage` | simple.py:386-409 | when the upload field holds a new file name, the request raises and the record the page holds stays exactly as it was |
| `EditRequest.IgnoredUndoClickPopsLaterAction` | simple.py:243-252 | an Undo click on an empty stack is not recorded. A later Run with the same Undo count pops the action run in between, so only the newest one remains |
| `EditRequest.EditSucceedsOnWellFormedStack` | simple.py:383-444 | on a well-formed stored stack, a request fails only in the new-file branch. The stack then held by the page is again well formed |
| `EditRequest.EditAppliesRequestedActions` | simple.py:411-444 | the new image is the post-undo image with the requested filter and then the enhancement applied on top. If the post-undo stack replays, so does the request |
| `EditRequest.UndoRequestShowsPreviousImage` | simple.py:381-383 | a fresh Undo click with nothing to run writes back the stack without its last action and shows that stack's replay |

## Left out

- The image library and the `utils` module: `apply_filters`, `apply_enhancements`, `generate_lasso_mask`, `im.size`, `show_histogram` and base64 decoding are not part of this model. The first four are function values passed in as `ImageLib.Library`, so every property holds whatever they compute.
- In-place mutation of images: the source's primitives return nothing and presumably change `im_pil` in place. At the bottom of the recursion that object is the global original image. The model treats each primitive as returning a new image, so it does not capture any change those primitives make to the shared original.
- Selection.RectangleZone: does not model the `int(...)` truncation of the plot's floating-point range coordinates. Range coordinates enter the model as integers.
- Replay.ApplyActionsOnImage: the filesystem cache is not modelled as storage. Memoisation appears only as the proved independence from the cache key (`ReplayIgnoresCacheKey`). The source's deep copy of the stack is implicit, because the stack is an immutable sequence.
- SessionStorage.UndoStep: assumes the record always carries `undo_click_count`. The initial record (`STORAGE_PLACEHOLDER`) comes from the `utils` module, which is not part of this model, so the `KeyError` that a missing count would raise on a non-empty stack is not modelled.
- JSON: `json.loads` and `json.dumps` of the storage record are the `Storage` constructor and `Storage.Record`. Actions on the stack have the two operation shapes the callback creates: a filter name or an enhancement record. Arbitrary JSON content is not modelled.
- The enhancement factor is opaque (`ImageLib.Factor`). The slider's floating-point values are not modelled.
- Left out as UI glue, none of which touches the edit history: the layout (`serve_layout`), session-id generation, the selection-mode, histogram, slider-visibility and dropdown-reset callbacks, the CSS list, the rendering of the response (`InteractiveImagePIL`, encoding format, drag mode), the upload contents, and timing and debug prints.
- The commented-out upload branch (store the new file name and signature, post the image to object storage, reset the stack) is not part of the code as written. It is not modelled.
- EditRequest.StoredAfter: that a callback which raises leaves the hidden record unchanged is how the web framework treats exceptions. It is assumed, not derived from simple.py.
