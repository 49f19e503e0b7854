/**
 * The composer: a local text buffer submitted trimmed, and the sync of the
 * native input's focus with the parent's `isFocused` prop.
 */
module Toolbar {
  import opened Wrappers
  import opened JsString

  /** What `componentDidUpdate` tells the native input to do. */
  datatype FocusCommand = NoCommand | FocusInput | BlurInput

  class Toolbar {
    /** `state.text`, the buffer shown in the input. */
    var text: string
    /** The parent's `isFocused` prop as of the current render. */
    var isFocused: bool
    /** Whether the input ref has been attached. */
    var hasInput: bool

    constructor (isFocused: bool)
      ensures text == "" && this.isFocused == isFocused && !hasInput
    {
      text := "";
      this.isFocused := isFocused;
      hasInput := false;
    }

    /** The input's ref callback: attached on mount, detached (`null`) on unmount. */
    method SetInputRef(attached: bool)
      modifies this
      ensures hasInput == attached
      ensures text == old(text) && isFocused == old(isFocused)
    {
      hasInput := attached;
    }

    /** Command after a re-render whose previous `isFocused` prop was `prevIsFocused`. */
    method ComponentDidUpdate(prevIsFocused: bool) returns (cmd: FocusCommand)
      ensures cmd == FocusInput <==> prevIsFocused != isFocused && hasInput && isFocused
      ensures cmd == BlurInput <==> prevIsFocused != isFocused && hasInput && !isFocused
      ensures cmd == NoCommand <==> prevIsFocused == isFocused || !hasInput
    {
      if prevIsFocused != isFocused && hasInput {
        if isFocused {
          cmd := FocusInput;
        } else {
          cmd := BlurInput;
        }
      } else {
        cmd := NoCommand;
      }
    }

    method HandleChangeText(s: string)
      modifies this
      ensures text == s
      ensures isFocused == old(isFocused) && hasInput == old(hasInput)
    {
      text := s;
    }

    /**
     * The return key. `submitted` is the argument of the one `onSubmit` call,
     * or `None` when `onSubmit` is not called. A blank buffer is kept as it is.
     */
    method HandleSubmitEditing() returns (submitted: Option<string>)
      modifies this
      ensures submitted.Some? <==> !AllWhitespace(old(text))
      ensures submitted.Some? ==> submitted.value == Trim(old(text)) && text == ""
      ensures submitted.None? ==> text == old(text)
      ensures submitted.Some? ==>
        var t := submitted.value;
        |t| > 0 && !IsWhitespace(t[0]) && !IsWhitespace(t[|t| - 1])
      ensures isFocused == old(isFocused) && hasInput == old(hasInput)
    {
      var trimmed := Trim(text);
      if |trimmed| > 0 {
        submitted := Some(trimmed);
        text := "";
      } else {
        submitted := None;
      }
    }

    /** Focus of the input is reported upward as `onChangeFocus(true)`. */
    method HandleFocus() returns (reported: bool)
      ensures reported
    {
      reported := true;
    }

    /** Blur of the input is reported upward as `onChangeFocus(false)`. */
    method HandleBlur() returns (reported: bool)
      ensures !reported
    {
      reported := false;
    }
  }
}
