/** The reading web view (SSReadingView) and its JavaScript bridge: the comment
    merge run when the page reports an edited comment, the commands the view
    sends to the page, and the focus and context-menu flags. */
module Reader {
  import opened Models

  // ---------------------------------------------------------------------------
  // Case-insensitive comparison of element ids (`String.equalsIgnoreCase`)
  // ---------------------------------------------------------------------------

  function UpperAscii(c: char): char
  {
    if 'a' <= c <= 'z' then (c as int - 32) as char else c
  }

  function LowerAscii(c: char): char
  {
    if 'A' <= c <= 'Z' then (c as int + 32) as char else c
  }

  /** Java's per-character test, over the ASCII case mapping. */
  predicate CharsEqualIgnoreCase(a: char, b: char)
  {
    a == b || UpperAscii(a) == UpperAscii(b) || LowerAscii(UpperAscii(a)) == LowerAscii(UpperAscii(b))
  }

  predicate EqualsIgnoreCase(a: string, b: string)
  {
    |a| == |b| && forall i :: 0 <= i < |a| ==> CharsEqualIgnoreCase(a[i], b[i])
  }

  /** The comparison is reflexive and symmetric, and ignores ASCII letter case. */
  lemma EqualsIgnoreCaseProperties(a: string, b: string)
    ensures EqualsIgnoreCase(a, a)
    ensures EqualsIgnoreCase(a, b) <==> EqualsIgnoreCase(b, a)
    ensures EqualsIgnoreCase(a, seq(|a|, i requires 0 <= i < |a| => UpperAscii(a[i])))
  {
  }

  // ---------------------------------------------------------------------------
  // The comment merge of `onCommentsClick`
  // ---------------------------------------------------------------------------

  /** Some comment belongs to the input element `inputId`. */
  predicate HasMatch(cs: seq<Comment>, inputId: string)
  {
    exists j :: 0 <= j < |cs| && EqualsIgnoreCase(cs[j].elementId, inputId)
  }

  /** Every comment of the input element gets the received text. */
  function ReplaceMatching(cs: seq<Comment>, inputId: string, text: string): seq<Comment>
  {
    seq(|cs|, j requires 0 <= j < |cs| =>
      if EqualsIgnoreCase(cs[j].elementId, inputId) then cs[j].(comment := text) else cs[j])
  }

  /** The comment list after the page reports `text` for the input element `inputId`. */
  function MergedComments(cs: seq<Comment>, inputId: string, text: string): seq<Comment>
  {
    if HasMatch(cs, inputId) then ReplaceMatching(cs, inputId, text) else cs + [Comment(inputId, text)]
  }

  /** With a match, the list keeps its length, every matching comment takes the
      received text and every other comment is untouched; without one, the new
      comment is appended after the old list. Either way the list now records
      the text for that element. */
  lemma MergedCommentsSpec(cs: seq<Comment>, inputId: string, text: string)
    ensures var r := MergedComments(cs, inputId, text);
            && (HasMatch(cs, inputId) ==>
                  && |r| == |cs|
                  && (forall j :: 0 <= j < |cs| && EqualsIgnoreCase(cs[j].elementId, inputId) ==>
                        r[j] == Comment(cs[j].elementId, text))
                  && (forall j :: 0 <= j < |cs| && !EqualsIgnoreCase(cs[j].elementId, inputId) ==>
                        r[j] == cs[j]))
            && (!HasMatch(cs, inputId) ==> r == cs + [Comment(inputId, text)])
            && (exists j :: 0 <= j < |r| && EqualsIgnoreCase(r[j].elementId, inputId) && r[j].comment == text)
  {
    var r := MergedComments(cs, inputId, text);
    if HasMatch(cs, inputId) {
      var j :| 0 <= j < |cs| && EqualsIgnoreCase(cs[j].elementId, inputId);
      assert r[j].elementId == cs[j].elementId && r[j].comment == text;
    } else {
      EqualsIgnoreCaseProperties(inputId, inputId);
      assert r[|cs|] == Comment(inputId, text);
    }
  }

  /** Reporting the same text twice for an element changes nothing the second time. */
  lemma {:induction false} MergedCommentsIdempotent(cs: seq<Comment>, inputId: string, text: string)
    ensures MergedComments(MergedComments(cs, inputId, text), inputId, text) == MergedComments(cs, inputId, text)
  {
    var r := MergedComments(cs, inputId, text);
    MergedCommentsSpec(cs, inputId, text);
    assert HasMatch(r, inputId);
    var r2 := ReplaceMatching(r, inputId, text);
    assert |r2| == |r|;
    forall j | 0 <= j < |r| ensures r2[j] == r[j] {
      if EqualsIgnoreCase(r[j].elementId, inputId) {
        if HasMatch(cs, inputId) {
          assert r[j] == cs[j].(comment := text);
        }
      }
    }
  }

  /** The loop of `onCommentsClick`: replace the text of every matching comment,
      noting whether one was found, and append a new comment otherwise. */
  method MergeComments(cs: seq<Comment>, inputId: string, text: string) returns (r: seq<Comment>)
    ensures r == MergedComments(cs, inputId, text)
  {
    var found := false;
    r := cs;
    var i := 0;
    while i < |cs|
      invariant 0 <= i <= |cs| && |r| == |cs|
      invariant found <==> exists j :: 0 <= j < i && EqualsIgnoreCase(cs[j].elementId, inputId)
      invariant forall j :: 0 <= j < i ==> r[j] == ReplaceMatching(cs, inputId, text)[j]
      invariant forall j :: i <= j < |cs| ==> r[j] == cs[j]
    {
      if EqualsIgnoreCase(r[i].elementId, inputId) {
        r := r[i := r[i].(comment := text)];
        found := true;
      }
      i := i + 1;
    }
    if !found {
      r := cs + [Comment(inputId, text)];
    }
  }

  // ---------------------------------------------------------------------------
  // Commands sent to the page
  // ---------------------------------------------------------------------------

  /** A JavaScript call the view sends to the page (the command strings themselves
      are not modelled). */
  datatype Command =
    | SetHighlightsCommand(highlights: string)
    | SetCommentCommand(comment: string, elementId: string)
    | HighlightSelectionCommand(color: string, highlightId: Option<Int32>)
    | UnHighlightSelectionCommand(highlightId: Option<Int32>)

  /** `highlightSelection`: the id-carrying form exactly when `highlightId > 0`. */
  function HighlightCommand(color: string, highlightId: Int32): (c: Command)
    ensures c.HighlightSelectionCommand? && c.color == color
    ensures c.highlightId.Some? <==> highlightId > 0
    ensures c.highlightId.Some? ==> c.highlightId.value == highlightId
  {
    if highlightId > 0 then HighlightSelectionCommand(color, Some(highlightId))
    else HighlightSelectionCommand(color, None)
  }

  /** `unHighlightSelection`: the id-carrying form exactly when `highlightId > 0`. */
  function UnHighlightCommand(highlightId: Int32): (c: Command)
    ensures c.UnHighlightSelectionCommand?
    ensures c.highlightId.Some? <==> highlightId > 0
    ensures c.highlightId.Some? ==> c.highlightId.value == highlightId
  {
    if highlightId > 0 then UnHighlightSelectionCommand(Some(highlightId))
    else UnHighlightSelectionCommand(None)
  }

  /** The commands `setComments` sends: one `setComment` per comment, in list order. */
  function CommentCommands(cs: seq<Comment>): (r: seq<Command>)
    ensures |r| == |cs|
    ensures forall i :: 0 <= i < |cs| ==> r[i] == SetCommentCommand(cs[i].comment, cs[i].elementId)
  {
    seq(|cs|, i requires 0 <= i < |cs| => SetCommentCommand(cs[i].comment, cs[i].elementId))
  }

  // ---------------------------------------------------------------------------
  // The view
  // ---------------------------------------------------------------------------

  /** A callback the view fires on its listeners. */
  datatype Event = SelectionStartedEvent | SelectionFinishedEvent | CommentsReceived(comments: ReadComments)

  /** The action mode `startActionMode` returns. */
  datatype ActionMode = PlatformActionMode | EmptyActionMode

  /** SSReadingView with its bridge. `commands` is the sequence of calls sent to
      the page and `events` the sequence of callbacks fired, both in order. */
  class ReadingView {
    var textAreaFocused: bool
    var contextMenuShown: bool
    var readHighlights: Option<ReadHighlights>
    var readComments: Option<ReadComments>
    var commands: seq<Command>
    var events: seq<Event>

    constructor ()
      ensures !textAreaFocused && !contextMenuShown
      ensures readHighlights == None && readComments == None
      ensures commands == [] && events == []
    {
      textAreaFocused, contextMenuShown := false, false;
      readHighlights, readComments := None, None;
      commands, events := [], [];
    }

    /** `setReadHighlights`. */
    method SetReadHighlights(h: Option<ReadHighlights>)
      modifies this`readHighlights
      ensures readHighlights == h
    {
      readHighlights := h;
    }

    /** `setReadComments`. */
    method SetReadComments(c: Option<ReadComments>)
      modifies this`readComments
      ensures readComments == c
    {
      readComments := c;
    }

    /** `SSReadViewBridge.focusin`. */
    method FocusIn()
      modifies this`textAreaFocused
      ensures textAreaFocused
    {
      textAreaFocused := true;
    }

    /** `SSReadViewBridge.focusout`. */
    method FocusOut()
      modifies this`textAreaFocused
      ensures !textAreaFocused
    {
      textAreaFocused := false;
    }

    /** `startActionMode(callback)`: report the selection and show the context menu. */
    method StartActionMode() returns (mode: ActionMode)
      modifies this`contextMenuShown, this`events
      ensures mode == EmptyActionMode
      ensures contextMenuShown && events == old(events) + [SelectionStartedEvent]
    {
      events := events + [SelectionStartedEvent];
      contextMenuShown := true;
      mode := EmptyActionMode;
    }

    /** `startActionMode(callback, type)`: the platform's action mode while a text
        area has focus, the view's own context menu otherwise. */
    method StartTypedActionMode() returns (mode: ActionMode)
      modifies this`contextMenuShown, this`events
      ensures old(textAreaFocused) ==>
                mode == PlatformActionMode && contextMenuShown == old(contextMenuShown) && events == old(events)
      ensures !old(textAreaFocused) ==>
                mode == EmptyActionMode && contextMenuShown && events == old(events) + [SelectionStartedEvent]
    {
      if textAreaFocused {
        mode := PlatformActionMode;
      } else {
        mode := StartActionMode();
      }
    }

    /** `selectionFinished`: report the end of the selection and hide the menu. */
    method SelectionFinished()
      modifies this`contextMenuShown, this`events
      ensures !contextMenuShown && events == old(events) + [SelectionFinishedEvent]
    {
      events := events + [SelectionFinishedEvent];
      contextMenuShown := false;
    }

    /** `updateHighlights`: send the highlights, if the view has any. */
    method UpdateHighlights()
      modifies this`commands
      ensures commands == if readHighlights.Some?
                          then old(commands) + [SetHighlightsCommand(readHighlights.value.highlights)]
                          else old(commands)
    {
      if readHighlights.Some? {
        commands := commands + [SetHighlightsCommand(readHighlights.value.highlights)];
      }
    }

    /** `SSReadViewBridge.setComments`: one `setComment` call per comment, in order. */
    method SetComments(cs: seq<Comment>)
      modifies this`commands
      ensures commands == old(commands) + CommentCommands(cs)
    {
      for i := 0 to |cs|
        invariant commands == old(commands) + CommentCommands(cs[..i])
      {
        assert cs[..i + 1] == cs[..i] + [cs[i]];
        commands := commands + [SetCommentCommand(cs[i].comment, cs[i].elementId)];
      }
      assert cs[..|cs|] == cs;
    }

    /** `updateComments`: send the comments, if the view has any. */
    method UpdateComments()
      modifies this`commands
      ensures commands == if readComments.Some?
                          then old(commands) + CommentCommands(readComments.value.comments)
                          else old(commands)
    {
      if readComments.Some? {
        SetComments(readComments.value.comments);
      }
    }

    /** `SSReadViewBridge.highlightSelection`. */
    method HighlightSelection(color: string, highlightId: Int32)
      modifies this`commands
      ensures commands == old(commands) + [HighlightCommand(color, highlightId)]
    {
      commands := commands + [HighlightCommand(color, highlightId)];
    }

    /** `SSReadViewBridge.unHighlightSelection`. */
    method UnHighlightSelection(highlightId: Int32)
      modifies this`commands
      ensures commands == old(commands) + [UnHighlightCommand(highlightId)]
    {
      commands := commands + [UnHighlightCommand(highlightId)];
    }

    /** `SSReadViewBridge.onCommentsClick`. `decoded` is the Base64-decoded text, or
        None when decoding throws. A decode failure, or a view without comments
        (the null dereference), ends in the catch block: nothing changes and no
        callback fires. Otherwise the merged list is stored and reported once. */
    method OnCommentsClick(decoded: Option<string>, inputId: string)
      modifies this`readComments, this`events
      ensures decoded.None? || old(readComments).None? ==>
                readComments == old(readComments) && events == old(events)
      ensures decoded.Some? && old(readComments).Some? ==>
                var rc := old(readComments).value;
                && readComments == Some(ReadComments(rc.readIndex, MergedComments(rc.comments, inputId, decoded.value)))
                && events == old(events) + [CommentsReceived(readComments.value)]
    {
      if decoded.None? || readComments.None? {
        return;
      }
      var rc := readComments.value;
      var merged := MergeComments(rc.comments, inputId, decoded.value);
      readComments := Some(ReadComments(rc.readIndex, merged));
      events := events + [CommentsReceived(readComments.value)];
    }
  }
}
