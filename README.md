# Chat timeline state model

A Dafny model of the state behind a small React Native chat screen: the
message factory with its shared id counter, the root view's state and the
handlers that update it, and the composer toolbar's text buffer and focus
sync.

- `MessageUtils` (`message_utils.dfy`): the `Message` datatype (text, image or
  location, each variant carrying only its own payload) and the class
  `IdCounter`, which stands for the module-level `messageId` counter; its
  three factory methods stamp each record with the counter's next value.
- `App` (`app.dfy`): the class `App` with the fields `messages`,
  `fullscreenImageId` and `isInputFocused`, the object invariant `Valid()`
  (ids are issued, distinct and at least 1, and a set fullscreen target names an image record of the list), one method per handler, and the
  pure list operations the handlers use: `Delete` (the `filter` of
  `deleteMessage`), `FindIndexById` (the `find` of the fullscreen overlay) and
  `FullscreenImageUri` (the overlay's lookup). JavaScript truthiness of the
  fullscreen id is modelled as written (`null` and `0` are falsy); the lemma
  `TruthyIffSet` shows that under `Valid()` it coincides with "is set".
- `Toolbar` (`toolbar.dfy`): the class `Toolbar` with the `text` buffer, the
  `isFocused` prop and whether the input ref is attached. Calls to the
  parent's callbacks (`onSubmit`, `onChangeFocus`) and the commands sent to
  the native input are out-parameters.
- `JsString` (`js_string.dfy`): `String.prototype.trim`, over the exact
  ECMAScript set of WhiteSpace and LineTerminator code points.
- `Wrappers` (`wrappers.dfy`): `Option`, for `null`.

Each handler is one atomic state update. The delete confirmation dialog is
the parameter `confirmDelete` of `HandlePressMessage`: confirm deletes the
record, cancel does nothing.

## Model

| member | source | states |
|---|---|---|
| `MessageUtils.IdCounter.constructor` | utils/MessageUtils.js:16 | a freshly loaded module's counter is 0 |
| `MessageUtils.IdCounter.NextId` | utils/MessageUtils.js:18-21 | the counter goes up by exactly one and the new value, at least 1, is returned |
| `MessageUtils.IdCounter.CreateTextMessage` | utils/MessageUtils.js:24-30 | yields a text record holding the given text, with the next id, which exceeds every id issued before |
| `MessageUtils.IdCounter.CreateImageMessage` | utils/MessageUtils.js:32-38 | yields an image record holding the given uri, with the next id, which exceeds every id issued before |
| `MessageUtils.IdCounter.CreateLocationMessage` | utils/MessageUtils.js:40-46 | yields a location record holding the given coordinate, with the next id, which exceeds every id issued before |
| `MessageUtils.Message.KindOf` | utils/MessageUtils.js:5-14 | the tag is one of text, image, location and names the variant, whose only payload is that kind's field |
| `App.Truthy` | App.js:45 | the fullscreen target is tested for truthiness: null and 0 are falsy, every other number is truthy |
| `App.App.constructor` | App.js:18-30 | the initial list is image, text "World", text "Hello", location, with the next four ids in that order (1..4 on a fresh counter); no fullscreen image, input not focused; the invariant holds |
| `App.Delete` | App.js:56-60 | no surviving record carries the deleted id, and the list never grows |
| `App.DeleteMembers` | App.js:58 | a record survives the filter exactly when it was in the list and has another id |
| `App.DeleteCounts` | App.js:58 | records with the id are all removed and every other record keeps its multiplicity |
| `App.DeleteAppend` | App.js:58 | the filter distributes over concatenation, so the survivors keep their relative order |
| `App.DeleteAbsent` | App.js:58 | deleting an id nobody carries leaves the list unchanged |
| `App.DeleteKeepsIds` | App.js:56-60 | deleting keeps the ids distinct and within the issued range |
| `App.FindIndexById` | App.js:126 | the result is the first position whose record has the id, or none when no record has it |
| `App.FindIndexByIdUnique` | App.js:126 | with distinct ids the lookup finds the one record carrying the id |
| `App.FullscreenImageUri` | App.js:121-129 | an image is shown only when the target id is truthy and an image record with that id and that uri exists; a falsy or unknown target shows nothing |
| `App.FullscreenImageShown` | App.js:121-129 | with distinct ids, uri u is shown exactly when the target is truthy and names an image record with uri u |
| `App.TruthyIffSet` | App.js:43-50 | when no target id is 0 the truthiness test equals the non-null test |
| `App.App.HandleBackPress` | App.js:43-50 | returns true and clears the fullscreen id exactly when one is set, which is exactly when the overlay draws an image; otherwise returns false and changes nothing |
| `App.App.DismissFullscreenImage` | App.js:52-54 | clears the fullscreen id and nothing else |
| `App.App.DeleteMessage` | App.js:56-60 | the list becomes its filter by id; the other fields are untouched and the invariant (including "a set fullscreen target names an image record") holds |
| `App.App.HandlePressMessage` | App.js:62-85 | a confirmed text press is `Delete` of its id and a cancelled one changes nothing; an image press sets the fullscreen id to it and drops focus; a location press changes nothing |
| `App.App.HandleChangeFocus` | App.js:88-90 | sets the focus flag to the argument and nothing else |
| `App.App.HandleSubmit` | App.js:92-96 | prepends one text record whose id is the counter's next value and exceeds every id in the list; the old list follows unchanged |
| `App.App.HandlePressToolbarCamera` | App.js:98-101 | only clears the focus flag |
| `App.App.HandlePressToolbarLocation` | App.js:103-106 | only clears the focus flag |
| `JsString.LeadingSpaceCount` | components/Toolbar.js:58 | the length of the longest all-white-space prefix |
| `JsString.TrailingSpaceCount` | components/Toolbar.js:58 | the length of the longest all-white-space suffix |
| `JsString.TrimBounds` | components/Toolbar.js:58 | the cut-off ends are white space, the kept part starts and ends with non-white-space, and nothing is kept exactly when the string is all white space |
| `JsString.Trim` | components/Toolbar.js:58 | the result is a piece of the input flanked only by white space, empty exactly for all-white-space input, else starting and ending with non-white-space |
| `JsString.TrimIdempotent` | components/Toolbar.js:58 | trimming a trimmed string changes nothing |
| `Toolbar.Toolbar.constructor` | components/Toolbar.js:43 | the buffer starts empty |
| `Toolbar.Toolbar.SetInputRef` | components/Toolbar.js:54 | records whether the input ref is attached and changes nothing else |
| `Toolbar.Toolbar.ComponentDidUpdate` | components/Toolbar.js:46-52 | focuses the input exactly when the prop changed to true and the ref is attached, blurs it exactly when it changed to false and the ref is attached, else does nothing |
| `Toolbar.Toolbar.HandleChangeText` | components/Toolbar.js:55 | the buffer becomes the new text exactly |
| `Toolbar.Toolbar.HandleSubmitEditing` | components/Toolbar.js:57-63 | submits once, with the trimmed buffer, exactly when the buffer is not all white space, and then clears the buffer; a blank buffer is kept and nothing is submitted; a submitted text is non-empty with no white space at either end |
| `Toolbar.Toolbar.HandleFocus` | components/Toolbar.js:65 | reports focus as true |
| `Toolbar.Toolbar.HandleBlur` | components/Toolbar.js:66 | reports focus as false |

## Left out

- components/Status.js: the network banner is platform I/O (a status query and a change subscription); its only logic is the test that the connection type is not `none`.
- components/MessageList.js: rendering only (list keys, per-kind views, a null view for a missing coordinate).
- The hardware back-button subscription and its removal (App.js:32-41), and all render and style code.
- The `isFocused` prop of the toolbar is passed down by the root view's render (App.js:144); the model has no render, so a client sets the `isFocused` field of `Toolbar` directly before calling `ComponentDidUpdate`.
- The delete dialog itself: its asynchronous answer is taken as the `confirmDelete` argument of the press.
- React's batching of `setState`: each handler is one atomic update.
- Coordinates are treated as opaque values; no arithmetic is done on them.
- `MessageUtils.IdCounter.NextId`: ids are unbounded integers, so the loss of precision of JavaScript numbers beyond 2^53 is not modelled.
- `App.App.HandlePressMessage` requires the pressed record to be in the list, since the list view only offers presses on the records it was given, which are the state's records.
- `App.App.DeleteMessage` requires that only text records carry the id, since its one caller is the confirm branch of a text press (App.js:73) and ids are distinct; deleting the image on display is not modelled.
- `App.FindIndexById` returns the position of the record rather than the record that `find` returns; `FullscreenImageUri` reads the record at that position.
