/** The message box (`ChatInput.tsx`): a controlled textarea whose text is sent on submit or on Enter. */
module ChatInput {
  import opened Wrappers
  import opened Strings

  /** What a submit hands to the chat, if anything: the trimmed draft, unless it is blank or an answer is pending. */
  function Submission(draft: string, isLoading: bool): (sent: Option<string>)
    ensures sent.Some? <==> !IsBlank(draft) && !isLoading
    ensures sent.Some? ==> sent.value != [] && !IsWhitespace(sent.value[0]) && !IsWhitespace(sent.value[|sent.value| - 1])
    ensures sent.Some? ==> |sent.value| <= |draft|
    ensures sent.Some? ==> sent.value == Trim(draft)
  {
    var t := Trim(draft);
    if t != [] && !isLoading then Some(t) else None
  }

  /** The key handler intercepts Enter without Shift; every other key (Shift+Enter included) types into the box. */
  predicate SubmitsOnKey(key: string, shiftKey: bool)
  {
    key == "Enter" && !shiftKey
  }

  /** A sent message is already trimmed: the chat's own `trim` leaves it as it is. */
  lemma SubmissionTrimmed(draft: string, isLoading: bool)
    requires Submission(draft, isLoading).Some?
    ensures Trim(Submission(draft, isLoading).value) == Submission(draft, isLoading).value
    ensures !IsBlank(Submission(draft, isLoading).value)
  {
    TrimIdempotent(draft);
  }

  /** A draft of only whitespace (or nothing) is never sent, loading or not. */
  lemma BlankNeverSent(draft: string, isLoading: bool)
    requires forall i :: 0 <= i < |draft| ==> IsWhitespace(draft[i])
    ensures Submission(draft, isLoading) == None
  {
    BlankIffWhitespace(draft);
  }

  /** Only Enter without Shift submits: Shift+Enter and every other key leave the box to the browser. */
  lemma OnlyPlainEnterSubmits(key: string, shiftKey: bool)
    ensures SubmitsOnKey(key, shiftKey) ==> key == "Enter"
    ensures shiftKey ==> !SubmitsOnKey(key, shiftKey)
    ensures SubmitsOnKey("Enter", false)
  {
  }

  /** The component's one piece of state: the text in the box. */
  class InputState {
    var draft: string

    /** `useState('')`: the box starts empty. */
    constructor ()
      ensures draft == ""
    {
      draft := "";
    }

    /** `onChange`: the box holds exactly what was typed. */
    method Change(value: string)
      modifies this
      ensures draft == value
    {
      draft := value;
    }

    /** `handleSubmit`: send the trimmed draft and clear the box, or do nothing. */
    method Submit(isLoading: bool) returns (sent: Option<string>)
      modifies this
      ensures sent == Submission(old(draft), isLoading)
      ensures draft == if sent.Some? then "" else old(draft)
    {
      var t := Trim(draft);
      if t != [] && !isLoading {
        sent := Some(t);
        draft := "";
      } else {
        sent := None;
      }
    }

    /** `handleKeyPress`: Enter without Shift prevents the newline and submits; any other key changes nothing here. */
    method KeyPress(key: string, shiftKey: bool, isLoading: bool) returns (prevented: bool, sent: Option<string>)
      modifies this
      ensures prevented == SubmitsOnKey(key, shiftKey)
      ensures sent == if prevented then Submission(old(draft), isLoading) else None
      ensures draft == if sent.Some? then "" else old(draft)
    {
      prevented := key == "Enter" && !shiftKey;
      if prevented {
        sent := Submit(isLoading);
      } else {
        sent := None;
      }
    }
  }

  /** Submitting sends at most once: right after a send the box is empty, so a second submit sends nothing. */
  method SubmitTwice(box: InputState, isLoading: bool) returns (first: Option<string>, second: Option<string>)
    modifies box
    ensures first == Submission(old(box.draft), isLoading)
    ensures first.Some? ==> second == None
    ensures first.None? ==> second == first && box.draft == old(box.draft)
  {
    first := box.Submit(isLoading);
    second := box.Submit(isLoading);
  }
}
