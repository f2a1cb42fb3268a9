# Markdown-style triggers of a draft-js editor, modelled in Dafny

The application is a React page around a draft-js `Editor`. Its logic is in
two key handlers:

- `handleBeforeInput` runs when characters are about to be typed. For a single
  space it reads the whole text of the block that holds the start of the
  selection. When that text is exactly `#`, `*`, `**` or `***`, the handler
  removes it. `#` then toggles the block between `header-one` and a plain
  paragraph. The three star tokens toggle `BOLD`, `RED` and `UNDERLINE` in the
  inline style override. The handler answers `"handled"`, so the space itself
  is never inserted. Any other input gets `"not-handled"`, and the editor
  inserts the characters itself.
- `handleReturn` lets draft-js split the block. It then sets the inline style
  override to the empty list, so text typed in the new block carries no style.
  It always answers `"handled"`.

The model has three modules:

- `Draft` (draft.dfy) is an abstract editor state. It holds a map from block
  key to a block (text and block type), a selection inside one block, and the
  inline style override as a set. It also states the contracts of the draft-js
  operations the handlers call, as far as their names and arguments make them
  evident: `Modifier.replaceText`, `RichUtils.toggleBlockType`,
  `RichUtils.toggleInlineStyle`, `EditorState.push` (which the model lets
  carry the override over unchanged, see "Left out"),
  `EditorState.setInlineStyleOverride`, and the editor's own insertion of
  typed characters that it performs after `"not-handled"`.
- `App` (app.dfy) holds the two handlers, written as the same `if`/`else if`
  chain as the source. Beside them are a trigger table (`Token` and its
  inverse `TriggerOf`) and a reference statement of a fired trigger (`Fire`),
  with lemmas that tie the handler to both.
- `Session` (session.dfy) replays keystrokes the way the editor drives the
  handler. It proves what typing a token and then a space does, once or `n`
  times in a row, and what happens when a token follows other text.

The handlers build new immutable states, and the model keeps them as pure
functions. The call to `setEditorState` becomes the state part of the returned
`Outcome`.

Three behaviours of the code are easy to misread, and the model keeps them as written:

- The code compares the whole block text with each token, not the text before
  the cursor. A block `#x` with the cursor after `#` fires nothing
  (`App.TriggerOf`), and where the cursor sits plays no part
  (`App.CursorOffsetIsIrrelevant`).
- The code never checks that the selection is collapsed.
- The code does not make the blocks produced by a split into paragraphs. That
  is left to `Modifier.splitBlock`, and the model does not assert it.

## Model

| member | source | states |
|---|---|---|
| `Draft.ReplaceText` | src/App.js:53-57 | Replacing a range with `""`: the range's characters are gone, the text before and after it is kept, the block type and every other block are unchanged, and the cursor sits at the range's start |
| `Draft.Push` | src/App.js:51-58 | `EditorState.push` (here the `"remove-range"` push; the same call at lines 67, 83, 99 and 122): the new blocks and the selection after the edit replace the old ones, and the override is carried over for every change type (an abstraction, see "Left out") |
| `Draft.ToggleBlockType` | src/App.js:50-61 | Toggling to `header-one`: the selected block becomes a heading exactly when it was not one; its text and all other blocks are unchanged |
| `Draft.ToggleInlineStyle` | src/App.js:66-77 | Toggling a style at a collapsed cursor: that style's membership in the override flips, every other style's is kept, and the blocks and selection are unchanged |
| `Draft.SetInlineStyleOverride` | src/App.js:127 | `EditorState.setInlineStyleOverride`: the override becomes exactly the given styles, and blocks and selection are unchanged |
| `Draft.InsertCharacters` | src/App.js:152 | The editor's insertion after `"not-handled"`: the selection is replaced by the typed characters, the cursor moves behind them, the style in effect is kept, and no other block changes |
| `App.TriggerOf` | src/App.js:48-112 | A trigger is found only for a text equal to that trigger's token, and none for a text other than `#`, `*`, `**` and `***`, so `a#`, `#x` or `****` fire nothing |
| `App.TriggerOfToken` | src/App.js:48-111 | Each token read back gives its own trigger, so the four cases exclude each other |
| `App.TriggerOfIffToken` | src/App.js:48-112 | A block text fires trigger `t` if and only if it equals `t`'s token |
| `App.RemoveLeading` | src/App.js:53-59 | Re-anchoring the selection at 0 and `n` and replacing that range with `""` leaves the block's text from offset `n` on, with the cursor at 0; other blocks and the override are unchanged |
| `App.HandleBeforeInput` | src/App.js:40-115 | Not handled means unchanged state. It is handled if and only if the input is a single space and the block's whole text is a token. Then the block is empty, the cursor is at its start, and no other block changes |
| `App.HandleReturn` | src/App.js:117-129 | Always `"handled"`. The blocks and selection are those produced by the split, and the override is empty whatever it was before |
| `App.HandleBeforeInputFollowsTable` | src/App.js:45-114 | For a space, the handler's result is exactly the table: no trigger means not handled and unchanged; trigger `t` means handled with `Fire(s, t)` (block emptied, `t`'s effect applied, nothing else changed) |
| `App.FireForgetsTextAndCursor` | src/App.js:53-56 | The state after a trigger does not depend on the old text of the block or the old cursor offsets |
| `App.OnlySpaceIsConsidered` | src/App.js:41 | Any input other than exactly `" "` is `"not-handled"` and leaves the state unchanged (a corollary of `App.HandleBeforeInput`'s contract, stated on its own) |
| `App.TriggerEffects` | src/App.js:48-111 | `#` flips heading/paragraph and keeps the override. A style trigger flips exactly its own style and keeps the block type |
| `App.FiredTriggerRemovesWholeText` | src/App.js:48-111 | The fixed end offset the handler removes up to for each token (1, 1, 2, 3) is that token's length: removing [0, end) empties the block, the handled state is that removal followed by the token's toggle call, and no space is left in the block |
| `App.CursorOffsetIsIrrelevant` | src/App.js:43-48 | Moving the cursor within the block changes neither the answer nor, when a trigger fires, the resulting state |
| `App.OnlySelectedBlockIsRead` | src/App.js:44-56 | Two states that agree on the selection, the override and the selected block get the same answer and the same new selected block, selection and override |
| `App.FireTwiceRestores` | src/App.js:48-111 | From an emptied block, firing the same trigger twice gives back the original state, block type and override included |
| `App.ReturnClearsAnyOverride` | src/App.js:127-128 | A style active before return is absent afterwards, and the return is handled (a corollary of `App.HandleReturn`'s contract, stated on its own) |
| `Session.Keystroke` | src/App.js:148-154 | One keystroke, through the handler or the default insertion, keeps the selection in its block, keeps it well formed, and touches no other block |
| `Session.KeystrokeInserts` | src/App.js:41 | A keystroke other than a single space is inserted literally |
| `Session.KeystrokeSpace` | src/App.js:45-114 | A space is inserted literally unless the block's text is a token, and then that token's trigger fires |
| `Session.TypeAll` | src/App.js:148-154 | Any run of keystrokes keeps the selection in its block and the state well formed, and never touches another block |
| `Session.TypingWithoutSpaces` | src/App.js:41 | Typing space-free text character by character is exactly the editor's insertion of that text |
| `Session.TokenThenSpaceFires` | src/App.js:48-111 | At the start of an empty block, typing a token and then a space fires that token's trigger, and the space is not inserted |
| `Session.TypeAllRepeat` | src/App.js:148-154 | Replaying `n` copies of a run of keystrokes is typing that run `n` times over, each round starting where the last one ended |
| `Session.RepeatedTokenFiresEachTime` | src/App.js:48-111 | Typing token-then-space `n` rounds in a row fires the trigger `n` times |
| `Session.FireTimesParity` | src/App.js:64-111 | Firing a trigger an even number of times restores the state, and an odd number equals firing it once |
| `Session.RepeatedTriggerParity` | src/App.js:48-111 | Typing token-then-space `n` times gives back the original state when `n` is even (a style switched off again, a heading back to a paragraph) and the trigger applied once when `n` is odd |
| `Session.NoTokenAfterText` | src/App.js:48-96 | A text that holds a character other than `*` before a token is not a token |
| `Session.TokenAfterTextIsLiteral` | src/App.js:114 | After such a text, a token and then a space is not a trigger. The space is inserted literally behind the token |

## Left out

- Persistence is not modelled: reading the saved content at start-up and the Save button's write (src/App.js:30-38, 131-137). This is storage I/O plus the library's `convertToRaw`/`convertFromRaw` and JSON serializer, whose source is not part of this model.
- The React wiring (`useState`, `useCallback`, JSX) and the `styleMap` presentation table (src/App.js:13-27, 139-157) are not modelled. They are UI and declarative configuration.
- `Modifier.splitBlock` is a function parameter of `HandleReturn`, because its source is not part of this model. So the model says nothing about how the text is divided or which type the new block gets. In particular it does not claim that a heading becomes a paragraph.
- The change types passed to `EditorState.push` (`"remove-range"`, `"split-block"`) are not modelled. They are not only undo metadata: draft-js keeps the inline style override across a push only for `adjust-depth`, `change-block-type` and `split-block`, and resets it to null for every other type. A `"split-block"` push keeps the override, which is why the handler clears it explicitly afterwards (src/App.js:127). The model's `Push` carries the override over for every change type.
- Selections that span blocks are not represented. A `Selection` is one block key with anchor and focus offsets in either order, and `getStartKey` is that key. draft-js's stored `isBackward` flag is not represented either. The handler's `selection.merge({anchorOffset: 0, focusOffset: n})` (src/App.js:55, 71, 87, 103) changes only the two offsets and keeps the anchor key, the focus key and that flag, while `RemoveLeading` always takes the range as [0, n) in the one block. This has consequences in draft-js. Take a forward selection that starts in a token block and ends in a later block. A space then fires the trigger, and `replaceText` removes everything from offset 0 of the start block to offset n of the focus block. That deletes the blocks in between and joins the focus block onto the start block, and the range is out of bounds when the focus block is shorter than n. With a backward selection, start and end offsets swap, so the range removed is not [0, n). Hence the intro's "the handler removes it", the "block is empty" and "no other block changes" clauses of `App.HandleBeforeInput`, `App.FiredTriggerRemovesWholeText`, `App.HandleBeforeInputFollowsTable`, `App.OnlySelectedBlockIsRead` `App.CursorOffsetIsIrrelevant` and the `Session` lemmas built on them hold in draft-js for forward selections inside one block only. The model also accepts anchor > focus, but it reads such a selection as the forward range between the two offsets and so does not capture draft-js's backward behaviour.
- The model treats the inline style override as the style the next typed character takes, kept across every push. In draft-js the handler's `"remove-range"` push always resets the override to null. `RichUtils.toggleInlineStyle` then toggles relative to the style `getCurrentInlineStyle` derives from the text. At an emptied block that is the style of the last character of the nearest non-empty block above, and it is empty only when no such block exists (for instance at the first block). So typing `* ` a second time at an emptied first block turns `BOLD` on again rather than off, and after a style trigger the new override can depend on blocks other than the selected one. That reset and recomputation are not modelled. Every statement about the override after a style trigger is therefore relative to the override the model carries, not the running editor. That covers `App.Fire` (its `Restyled` override), `App.HandleBeforeInputFollowsTable`, `App.FiredTriggerRemovesWholeText`, `Session.KeystrokeSpace`, `Session.TokenThenSpaceFires`, `Session.RepeatedTokenFiresEachTime` and the lemmas named on the lines below.
- App.TriggerEffects: "`#` keeps the override" holds for the model's override; in draft-js the remove-range push clears it and the style is re-derived from the text.
- App.FireTwiceRestores: restoring the override by a second trigger holds for the model's override only; in draft-js the second toggle starts from the re-derived style.
- Session.FireTimesParity: the even/odd result for the override holds for the model's override only, for the same reason.
- Session.RepeatedTriggerParity: "a style switched off again" holds for the model's override only; in draft-js a style token typed again at an emptied first block turns the style on again.
- App.OnlySelectedBlockIsRead: its "same override" half holds for the model's override only; in draft-js a style trigger toggles the style derived from the nearest non-empty block above, so two states that agree on the selected block can end with different overrides.
- App.CursorOffsetIsIrrelevant: holds in draft-js for forward (including collapsed) selections only. With anchor > focus draft-js keeps `isBackward` through the merge at src/App.js:55, and `removeRange` then swaps start and end: over `#`, the text becomes `##` instead of empty. The model has no such flag, so its "same new state" for backward offset pairs is a statement about the model only.
- ToggleInlineStyle: only the collapsed-cursor branch of `RichUtils.toggleInlineStyle` is modelled (it requires a collapsed selection). The handler always calls it at a collapsed cursor. Applying a style to a selected range of characters needs per-character styles, which the model does not have.
- HandleBeforeInput: requires that the selection's block exists whenever the input is a space. `getBlockForKey` on a missing key fails in the source, and draft-js never hands the handler such a state.
- InsertCharacters: the editor's default insertion is modelled only by its evident effect (replace the selection, cursor behind the inserted text). Input-method composition and paste are not modelled.
- Character runs, entities and block data of draft-js content are not represented. A block is its text and its type.
