/**
 An abstract view of the draft-js editor state that the application's key
 handlers read and rebuild, and of the draft-js operations they call.

 Only what those calls make evident is modelled: a document is a map from
 block key to a block (its text and its block type), a selection lies inside
 one block, and the inline style override is the set of styles that the next
 typed character takes. Character runs, entities and undo history are not
 represented.
 */
module Draft {

  type Key = string

  /** The two block types the application uses: a paragraph and `header-one`. */
  datatype BlockType = Unstyled | HeaderOne

  /** The inline styles of the application's custom style map. */
  datatype InlineStyle = Bold | Red | Underline

  datatype Block = Block(text: string, blockType: BlockType)

  /** A selection inside the block named by `key`; anchor and focus may come in either order. */
  datatype Selection = Selection(key: Key, anchorOffset: nat, focusOffset: nat)
  {
    function StartOffset(): (o: nat)
      ensures o <= anchorOffset && o <= focusOffset
      ensures o == anchorOffset || o == focusOffset
    {
      if anchorOffset <= focusOffset then anchorOffset else focusOffset
    }

    function EndOffset(): (o: nat)
      ensures o >= anchorOffset && o >= focusOffset
      ensures o == anchorOffset || o == focusOffset
    {
      if anchorOffset <= focusOffset then focusOffset else anchorOffset
    }

    predicate IsCollapsed() {
      anchorOffset == focusOffset
    }
  }

  /** A cursor at `offset` in block `key`. */
  function Caret(key: Key, offset: nat): (sel: Selection)
    ensures sel.IsCollapsed() && sel.key == key
    ensures sel.StartOffset() == offset && sel.EndOffset() == offset
  {
    Selection(key, offset, offset)
  }

  /** The content produced by a draft-js modifier: the blocks and the selection after the edit. */
  datatype ContentState = ContentState(blocks: map<Key, Block>, selectionAfter: Selection)

  /** The editor state a handler receives and hands to `setEditorState`. */
  datatype EditorState = EditorState(
    blocks: map<Key, Block>,
    selection: Selection,
    inlineStyleOverride: set<InlineStyle>)

  /** The selection names an existing block and lies within its text. */
  predicate WellFormed(s: EditorState) {
    && s.selection.key in s.blocks
    && s.selection.EndOffset() <= |s.blocks[s.selection.key].text|
  }

  /** Every block other than `key` is present in both maps with the same value, and no key is added or lost. */
  ghost predicate OthersUnchanged(before: map<Key, Block>, after: map<Key, Block>, key: Key) {
    && after.Keys == before.Keys
    && forall k :: k in before && k != key ==> after[k] == before[k]
  }

  /**
   `Modifier.replaceText(content, range, replacement)`: the characters of the
   range are removed, `replacement` takes their place, and the selection
   after the edit is a cursor just behind the inserted text.
   */
  function ReplaceText(blocks: map<Key, Block>, range: Selection, replacement: string): (c: ContentState)
    requires range.key in blocks && range.EndOffset() <= |blocks[range.key].text|
    ensures range.key in c.blocks && OthersUnchanged(blocks, c.blocks, range.key)
    ensures c.blocks[range.key].blockType == blocks[range.key].blockType
    ensures var before, after := blocks[range.key].text, c.blocks[range.key].text;
            var start, end := range.StartOffset(), range.EndOffset();
            && |after| == |before| - (end - start) + |replacement|
            && after[..start] == before[..start]
            && after[start..start + |replacement|] == replacement
            && after[start + |replacement|..] == before[end..]
    ensures c.selectionAfter == Caret(range.key, range.StartOffset() + |replacement|)
  {
    var b := blocks[range.key];
    var start, end := range.StartOffset(), range.EndOffset();
    var text := b.text[..start] + replacement + b.text[end..];
    assert text[..start] == b.text[..start];
    assert text[start..start + |replacement|] == replacement;
    assert text[start + |replacement|..] == b.text[end..];
    ContentState(blocks[range.key := Block(text, b.blockType)], Caret(range.key, start + |replacement|))
  }

  /**
   `EditorState.push`: the new content and its selection after replace the
   old ones. The override is carried over unchanged; draft-js itself keeps
   it only for some change types, which this model does not distinguish.
   */
  function Push(s: EditorState, c: ContentState): (r: EditorState)
    ensures r.blocks == c.blocks && r.selection == c.selectionAfter
    ensures r.inlineStyleOverride == s.inlineStyleOverride
  {
    s.(blocks := c.blocks, selection := c.selectionAfter)
  }

  /**
   `RichUtils.toggleBlockType(s, t)`: the selected block becomes `t`, or a
   plain paragraph when it already was `t`. Its text and every other block
   stay as they were.
   */
  function ToggleBlockType(s: EditorState, t: BlockType): (r: EditorState)
    requires s.selection.key in s.blocks
    ensures r.selection == s.selection && r.inlineStyleOverride == s.inlineStyleOverride
    ensures s.selection.key in r.blocks && OthersUnchanged(s.blocks, r.blocks, s.selection.key)
    ensures r.blocks[s.selection.key].text == s.blocks[s.selection.key].text
    ensures t != Unstyled ==> (r.blocks[s.selection.key].blockType == t <==> s.blocks[s.selection.key].blockType != t)
    ensures t == Unstyled ==> r.blocks[s.selection.key].blockType == Unstyled
  {
    var b := s.blocks[s.selection.key];
    var newType := if b.blockType == t then Unstyled else t;
    s.(blocks := s.blocks[s.selection.key := b.(blockType := newType)])
  }

  /**
   `RichUtils.toggleInlineStyle(s, style)` at a collapsed cursor: the style
   is removed from the override when present and added when absent; no
   other style, no text and no selection changes.
   */
  function ToggleInlineStyle(s: EditorState, style: InlineStyle): (r: EditorState)
    requires s.selection.IsCollapsed()
    ensures r.blocks == s.blocks && r.selection == s.selection
    ensures style in r.inlineStyleOverride <==> style !in s.inlineStyleOverride
    ensures forall other :: other != style ==> (other in r.inlineStyleOverride <==> other in s.inlineStyleOverride)
  {
    var o := s.inlineStyleOverride;
    s.(inlineStyleOverride := if style in o then o - {style} else o + {style})
  }

  /** `EditorState.setInlineStyleOverride(s, styles)`. */
  function SetInlineStyleOverride(s: EditorState, styles: set<InlineStyle>): (r: EditorState)
    ensures r.inlineStyleOverride == styles
    ensures r.blocks == s.blocks && r.selection == s.selection
  {
    s.(inlineStyleOverride := styles)
  }

  /**
   The editor's own insertion of typed characters when a handler declines
   them: the selection is replaced by `chars` and the cursor moves behind
   them. The typed characters take the override's styles, so the style in
   effect at the new cursor is the override as it was.
   */
  function InsertCharacters(s: EditorState, chars: string): (r: EditorState)
    requires WellFormed(s)
    ensures WellFormed(r)
    ensures r.selection == Caret(s.selection.key, s.selection.StartOffset() + |chars|)
    ensures r.inlineStyleOverride == s.inlineStyleOverride
    ensures OthersUnchanged(s.blocks, r.blocks, s.selection.key)
    ensures r.blocks[s.selection.key].blockType == s.blocks[s.selection.key].blockType
    ensures var before, after := s.blocks[s.selection.key].text, r.blocks[s.selection.key].text;
            var start := s.selection.StartOffset();
            after == before[..start] + chars + before[s.selection.EndOffset()..]
  {
    var r := Push(s, ReplaceText(s.blocks, s.selection, chars));
    var before, after := s.blocks[s.selection.key].text, r.blocks[s.selection.key].text;
    var start := s.selection.StartOffset();
    assert after == after[..start] + after[start..start + |chars|] + after[start + |chars|..];
    r
  }
}
