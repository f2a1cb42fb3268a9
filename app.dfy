/**
 The application's two key handlers: the space-trigger dispatcher that turns
 a block holding exactly `#`, `*`, `**` or `***` into a heading or an inline
 style when a space is typed, and the return handler that splits the block
 and clears the inline style override.
 */
module App {
  import opened Draft

  /** What a handler tells the editor: `"handled"` or `"not-handled"`. */
  datatype HandleValue = Handled | NotHandled

  /** A handler's answer together with the state it leaves the editor in. */
  datatype Outcome = Outcome(value: HandleValue, state: EditorState)

  datatype Option<T> = None | Some(value: T)

  /** The four formatting triggers. */
  datatype Trigger = Heading | Style(style: InlineStyle)

  /** The block text that fires each trigger. */
  function Token(t: Trigger): string {
    match t
    case Heading => "#"
    case Style(Bold) => "*"
    case Style(Red) => "**"
    case Style(Underline) => "***"
  }

  /**
   The trigger table read backwards: the trigger a block text fires, if
   any. A text fires a trigger exactly when it IS that trigger's token, so
   no two triggers share a token and a text with anything before or after
   a token fires nothing.
   */
  function TriggerOf(text: string): (r: Option<Trigger>)
    ensures r.Some? ==> text == Token(r.value)
    ensures r.None? ==> text != "#" && text != "*" && text != "**" && text != "***"
  {
    if text == "#" then Some(Heading)
    else if text == "*" then Some(Style(Bold))
    else if text == "**" then Some(Style(Red))
    else if text == "***" then Some(Style(Underline))
    else None
  }

  /** Reading a token back gives its trigger: the table is a round trip. */
  lemma TriggerOfToken(t: Trigger)
    ensures TriggerOf(Token(t)) == Some(t)
  {
    match t
    case Heading =>
    case Style(Bold) =>
    case Style(Red) =>
    case Style(Underline) =>
  }

  /** A text fires trigger `t` if and only if it is `t`'s token. */
  lemma TriggerOfIffToken(text: string, t: Trigger)
    ensures TriggerOf(text) == Some(t) <==> text == Token(t)
  {
    TriggerOfToken(t);
  }

  /**
   Removal of the first `n` characters of the selected block, as the
   handler does it: the selection is re-anchored at offsets 0 and `n` (its
   key kept), that range is replaced by the empty text, and the result is
   pushed with the cursor left at the block's start.
   */
  function RemoveLeading(s: EditorState, n: nat): (r: EditorState)
    requires s.selection.key in s.blocks && n <= |s.blocks[s.selection.key].text|
    ensures s.selection.key in r.blocks && OthersUnchanged(s.blocks, r.blocks, s.selection.key)
    ensures r.blocks[s.selection.key] == s.blocks[s.selection.key].(text := s.blocks[s.selection.key].text[n..])
    ensures r.selection == Caret(s.selection.key, 0)
    ensures r.inlineStyleOverride == s.inlineStyleOverride
  {
    var range := s.selection.(anchorOffset := 0, focusOffset := n);
    var c := ReplaceText(s.blocks, range, "");
    assert c.blocks[s.selection.key].text == c.blocks[s.selection.key].text[0..];
    Push(s, c)
  }

  /**
   `handleBeforeInput(chars, editorState)`. Only a single space is
   considered; then the WHOLE text of the selection's block (not the text
   before the cursor) is compared with each token in turn. On a match the
   token is removed and its effect applied, and the space is consumed.
   */
  function HandleBeforeInput(chars: string, s: EditorState): (r: Outcome)
    requires chars == " " ==> s.selection.key in s.blocks
    ensures r.value == NotHandled ==> r.state == s
    ensures r.value == Handled <==> chars == " " && TriggerOf(s.blocks[s.selection.key].text).Some?
    ensures r.value == Handled ==>
              && s.selection.key in r.state.blocks
              && OthersUnchanged(s.blocks, r.state.blocks, s.selection.key)
              && r.state.blocks[s.selection.key].text == ""
              && r.state.selection == Caret(s.selection.key, 0)
              && WellFormed(r.state)
  {
    if chars != " " then Outcome(NotHandled, s)
    else
      var text := s.blocks[s.selection.key].text;
      if text == "#" then
        Outcome(Handled, ToggleBlockType(RemoveLeading(s, 1), HeaderOne))
      else if text == "*" then
        Outcome(Handled, ToggleInlineStyle(RemoveLeading(s, 1), Bold))
      else if text == "**" then
        Outcome(Handled, ToggleInlineStyle(RemoveLeading(s, 2), Red))
      else if text == "***" then
        Outcome(Handled, ToggleInlineStyle(RemoveLeading(s, 3), Underline))
      else
        Outcome(NotHandled, s)
  }

  /**
   `handleReturn(e, editorState)`. `split` stands for `Modifier.splitBlock`,
   whose result is pushed; the override is then set to the empty list and
   the handler reports the return as handled.
   */
  function HandleReturn(s: EditorState, split: (map<Key, Block>, Selection) -> ContentState): (r: Outcome)
    ensures r.value == Handled
    ensures r.state.inlineStyleOverride == {}
    ensures r.state.blocks == split(s.blocks, s.selection).blocks
    ensures r.state.selection == split(s.blocks, s.selection).selectionAfter
  {
    var pushed := Push(s, split(s.blocks, s.selection));
    Outcome(Handled, SetInlineStyleOverride(pushed, {}))
  }

  // ---------------------------------------------------------------------
  // A reference statement of what a fired trigger does, written without
  // the draft-js operations, and the lemmas that tie the handler to it.
  // ---------------------------------------------------------------------

  /** The block type after trigger `t`: `#` flips heading and paragraph, the style triggers keep it. */
  function Retyped(bt: BlockType, t: Trigger): BlockType {
    if t == Heading then (if bt == HeaderOne then Unstyled else HeaderOne) else bt
  }

  /** The override after trigger `t`: a style trigger flips its style's membership, `#` keeps it. */
  function Restyled(o: set<InlineStyle>, t: Trigger): set<InlineStyle> {
    if t.Style? then (o - {t.style}) + ({t.style} - o) else o
  }

  /** The selected block emptied, trigger `t`'s effect applied and the cursor at the block's start. */
  function Fire(s: EditorState, t: Trigger): (r: EditorState)
    requires s.selection.key in s.blocks
    ensures WellFormed(r)
  {
    var k := s.selection.key;
    EditorState(s.blocks[k := Block("", Retyped(s.blocks[k].blockType, t))], Caret(k, 0), Restyled(s.inlineStyleOverride, t))
  }

  /** Firing ignores the selected block's old text and the old cursor offsets. */
  lemma FireForgetsTextAndCursor(s1: EditorState, s2: EditorState, t: Trigger)
    requires s1.selection.key == s2.selection.key && s1.selection.key in s1.blocks
    requires OthersUnchanged(s1.blocks, s2.blocks, s1.selection.key)
    requires s2.blocks[s1.selection.key].blockType == s1.blocks[s1.selection.key].blockType
    requires s1.inlineStyleOverride == s2.inlineStyleOverride
    ensures Fire(s1, t) == Fire(s2, t)
  {
    var k := s1.selection.key;
    var b1, b2 := Fire(s1, t).blocks, Fire(s2, t).blocks;
    assert b1.Keys == b2.Keys;
    forall x | x in b1 ensures b1[x] == b2[x] {
      if x != k {
        assert b1[x] == s1.blocks[x] == s2.blocks[x] == b2[x];
      }
    }
    assert b1 == b2;
  }

  /**
   The handler computes exactly the trigger table: a space in a block whose
   text is not a token changes nothing and is not handled; otherwise the
   block is emptied and the token's effect applied, and nothing else.
   */
  lemma {:induction false} HandleBeforeInputFollowsTable(s: EditorState)
    requires s.selection.key in s.blocks
    ensures HandleBeforeInput(" ", s) ==
              match TriggerOf(s.blocks[s.selection.key].text)
              case None => Outcome(NotHandled, s)
              case Some(t) => Outcome(Handled, Fire(s, t))
  {
    var k, text := s.selection.key, s.blocks[s.selection.key].text;
    var r := HandleBeforeInput(" ", s);
    match TriggerOf(text)
    case None =>
    case Some(t) =>
      assert r.state.blocks[k].blockType == Retyped(s.blocks[k].blockType, t);
      assert r.state.blocks == Fire(s, t).blocks;
      assert r.state.inlineStyleOverride == Fire(s, t).inlineStyleOverride;
  }

  /** Typed characters other than a single space are never handled and never change the state. */
  lemma OnlySpaceIsConsidered(chars: string, s: EditorState)
    requires chars != " "
    ensures HandleBeforeInput(chars, s) == Outcome(NotHandled, s)
  {
  }

  /**
   Each fired trigger has exactly its own effect: `#` flips the block type
   and keeps the override; a style trigger flips that one style and keeps
   the block type and every other style.
   */
  lemma TriggerEffects(s: EditorState, t: Trigger)
    requires s.selection.key in s.blocks && s.blocks[s.selection.key].text == Token(t)
    ensures var r := HandleBeforeInput(" ", s).state;
            var k := s.selection.key;
            && (t == Heading ==>
                  && (r.blocks[k].blockType == HeaderOne <==> s.blocks[k].blockType != HeaderOne)
                  && r.inlineStyleOverride == s.inlineStyleOverride)
            && (t.Style? ==>
                  && r.blocks[k].blockType == s.blocks[k].blockType
                  && (t.style in r.inlineStyleOverride <==> t.style !in s.inlineStyleOverride)
                  && forall o :: o != t.style ==> (o in r.inlineStyleOverride <==> o in s.inlineStyleOverride))
  {
    HandleBeforeInputFollowsTable(s);
  }

  /** The formatting call each trigger makes once its token is removed. */
  function Effect(s: EditorState, t: Trigger): EditorState
    requires s.selection.key in s.blocks && s.selection.IsCollapsed()
  {
    match t
    case Heading => ToggleBlockType(s, HeaderOne)
    case Style(style) => ToggleInlineStyle(s, style)
  }

  /**
   The range the handler removes, from 0 to the fixed offset it writes for
   each token (1, 1, 2 or 3), is exactly the token's length and so the whole
   block text: removing it empties the block, the handler's state is that
   removal followed by the trigger's formatting call, and the typed space
   is nowhere in the block afterwards.
   */
  lemma FiredTriggerRemovesWholeText(s: EditorState, t: Trigger)
    requires s.selection.key in s.blocks && s.blocks[s.selection.key].text == Token(t)
    ensures RemoveLeading(s, |Token(t)|).blocks[s.selection.key].text == ""
    ensures HandleBeforeInput(" ", s) == Outcome(Handled, Effect(RemoveLeading(s, |Token(t)|), t))
    ensures ' ' !in HandleBeforeInput(" ", s).state.blocks[s.selection.key].text
  {
    match t
    case Heading =>
    case Style(Bold) =>
    case Style(Red) =>
    case Style(Underline) =>
  }

  /**
   The cursor plays no part in the decision: two states that differ only in
   the selection's offsets give the same answer, and when a trigger fires
   they give the same new state.
   */
  lemma CursorOffsetIsIrrelevant(s: EditorState, anchor: nat, focus: nat)
    requires s.selection.key in s.blocks
    ensures var moved := s.(selection := s.selection.(anchorOffset := anchor, focusOffset := focus));
            var r1, r2 := HandleBeforeInput(" ", s), HandleBeforeInput(" ", moved);
            && r1.value == r2.value
            && (r1.value == Handled ==> r1.state == r2.state)
  {
    var moved := s.(selection := s.selection.(anchorOffset := anchor, focusOffset := focus));
    HandleBeforeInputFollowsTable(s);
    HandleBeforeInputFollowsTable(moved);
  }

  /**
   Only the selected block is read: states that agree on the selection, the
   override and the selected block get the same answer, and a fired trigger
   leaves them agreeing on those again.
   */
  lemma OnlySelectedBlockIsRead(s1: EditorState, s2: EditorState)
    requires s1.selection == s2.selection && s1.inlineStyleOverride == s2.inlineStyleOverride
    requires s1.selection.key in s1.blocks && s2.selection.key in s2.blocks
    requires s1.blocks[s1.selection.key] == s2.blocks[s2.selection.key]
    ensures var r1, r2 := HandleBeforeInput(" ", s1), HandleBeforeInput(" ", s2);
            && r1.value == r2.value
            && r1.state.selection == r2.state.selection
            && r1.state.inlineStyleOverride == r2.state.inlineStyleOverride
            && r1.state.blocks[s1.selection.key] == r2.state.blocks[s2.selection.key]
  {
    HandleBeforeInputFollowsTable(s1);
    HandleBeforeInputFollowsTable(s2);
  }

  /** Firing the same trigger twice from an emptied block restores its type and the override. */
  lemma {:induction false} FireTwiceRestores(s: EditorState, t: Trigger)
    requires s.selection.key in s.blocks && s.blocks[s.selection.key].text == ""
    requires s.selection == Caret(s.selection.key, 0)
    ensures Fire(Fire(s, t), t) == s
  {
    var k := s.selection.key;
    var twice := Fire(Fire(s, t), t);
    assert twice.blocks[k] == s.blocks[k];
    assert twice.blocks == s.blocks;
    assert twice.inlineStyleOverride == s.inlineStyleOverride;
  }

  /**
   Returning clears whatever override was in effect, so text typed in the
   new block starts without any inherited style, and the return is
   consumed whatever the split did.
   */
  lemma ReturnClearsAnyOverride(s: EditorState, split: (map<Key, Block>, Selection) -> ContentState, style: InlineStyle)
    requires style in s.inlineStyleOverride
    ensures var r := HandleReturn(s, split);
            r.value == Handled && style !in r.state.inlineStyleOverride
  {
  }
}
