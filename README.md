# Doodler drawing session, modelled in Dafny

The Doodler is a freehand drawing screen. Dragging a pointer draws a stroke.
Pickers set the colour, brush size and opacity. Undo and Redo move whole strokes
between the committed list and a redo stack. Clear empties both lists. A long
press inverts the colours of the committed strokes.

This project models the state and the event handlers of `DrawingApp` in
`MainActivity.kt`:

- `Paint.dfy` holds colours, `PaintOptions`, `invertColor`, the rendering colour
  rule and the pickers' option lists.
- `History.dfy` gives the session as a value, with one function per handler
  and the lemmas about single handlers.
- `Render.dfy` gives the sequence of `drawPath` calls one frame makes.
- `Trace.dfy` runs sequences of events through a session. It proves the
  properties that span many events: the points of a stroke, repeated
  undo/redo, and the style invariant the pickers keep.
- `DrawingApp.dfy` holds the class `DrawingSession`. Its fields are the
  source's `paths`, `undonePaths`, `currentPath`, `currentColor`,
  `currentStrokeWidth` and `currentAlpha`. Its methods update those fields in
  place. Each method is proved to leave the state the matching `History`
  function gives. `InvertColors` and `Draw` are loops with invariants.

The model follows the code in these places:

- A second drag start replaces the path in progress; it is not ignored.
- A stroke's `PaintOptions` are taken from the settings at drag end, not at
  drag start. The stroke in progress is drawn with the live settings.
- Rendering replaces the colour's alpha with the stroke's opacity
  (`copy(alpha = …)`); it does not multiply the two.
- Inversion changes only the committed list. The redo stack and the current
  colour keep their colours.

## Model

| member | source | states |
|---|---|---|
| `DrawingApp.DrawingSession.constructor` | app/src/main/java/com/maxdejesus/ciscx82doodler/MainActivity.kt:43-48 | The session starts with empty lists, no path in progress, black, width 5 and opacity 1. |
| `DrawingApp.DrawingSession.OnDragStart` | app/src/main/java/com/maxdejesus/ciscx82doodler/MainActivity.kt:139-143 | The path in progress becomes the one-point path at the offset, whatever was there; nothing else changes. |
| `DrawingApp.DrawingSession.OnDrag` | app/src/main/java/com/maxdejesus/ciscx82doodler/MainActivity.kt:144-146 | The position is appended to the path in progress; with no path in progress the state is unchanged. |
| `DrawingApp.DrawingSession.OnDragEnd` | app/src/main/java/com/maxdejesus/ciscx82doodler/MainActivity.kt:147-159 | A path in progress is appended to `paths` with the current colour, width and opacity, and `undonePaths` is emptied; `currentPath` is null afterwards in every case. |
| `DrawingApp.DrawingSession.UndoEnabled` | app/src/main/java/com/maxdejesus/ciscx82doodler/MainActivity.kt:195 | Undo is enabled exactly when `paths` is non-empty, and exactly when pressing it would change the session. |
| `DrawingApp.DrawingSession.RedoEnabled` | app/src/main/java/com/maxdejesus/ciscx82doodler/MainActivity.kt:206 | Redo is enabled exactly when `undonePaths` is non-empty, and exactly when pressing it would change the session. |
| `DrawingApp.DrawingSession.OnUndoClick` | app/src/main/java/com/maxdejesus/ciscx82doodler/MainActivity.kt:188-198 | The last committed stroke moves to the end of the redo stack; the total number of strokes is kept; no-op on an empty list. |
| `DrawingApp.DrawingSession.OnRedoClick` | app/src/main/java/com/maxdejesus/ciscx82doodler/MainActivity.kt:199-209 | The last entry of the redo stack moves to the end of `paths`; the total is kept; no-op on an empty stack. |
| `DrawingApp.DrawingSession.OnClearClick` | app/src/main/java/com/maxdejesus/ciscx82doodler/MainActivity.kt:59-62 | Both lists become empty; the path in progress and the settings are untouched. |
| `DrawingApp.DrawingSession.OnColorSelected` | app/src/main/java/com/maxdejesus/ciscx82doodler/MainActivity.kt:82-85 | Only the current colour changes, to the picked one. |
| `DrawingApp.DrawingSession.OnSizeSelected` | app/src/main/java/com/maxdejesus/ciscx82doodler/MainActivity.kt:96-99 | Only the current stroke width changes, to the picked one. |
| `DrawingApp.DrawingSession.OnAlphaSelected` | app/src/main/java/com/maxdejesus/ciscx82doodler/MainActivity.kt:110-113 | Only the current opacity changes, to the picked one. |
| `DrawingApp.DrawingSession.InvertColors` | app/src/main/java/com/maxdejesus/ciscx82doodler/MainActivity.kt:226-231 | The loop over the indices replaces entry k by the same path with the colour inverted, for every k; the list length and all other fields are kept. |
| `DrawingApp.DrawingSession.Draw` | app/src/main/java/com/maxdejesus/ciscx82doodler/MainActivity.kt:163-178 | The loop emits one draw call per committed stroke in list order, then one for the path in progress; the result is the frame `Render.Frame` describes. |
| `Paint.InvertColor` | app/src/main/java/com/maxdejesus/ciscx82doodler/MainActivity.kt:217-224 | Inversion keeps the alpha channel and keeps an in-gamut colour in gamut. |
| `Paint.InvertColorInvolution` | app/src/main/java/com/maxdejesus/ciscx82doodler/MainActivity.kt:217-224 | Inverting a colour twice gives it back (exact over reals). |
| `Paint.InvertColorKeepsByteGrid` | app/src/main/java/com/maxdejesus/ciscx82doodler/MainActivity.kt:217-224 | A colour whose channels are 8-bit levels k/255 inverts to one whose channels are the levels (255 - k)/255, so the inverted colour needs no rounding when packed. |
| `Paint.RenderColor` | app/src/main/java/com/maxdejesus/ciscx82doodler/MainActivity.kt:167 | The drawn colour has the stroke's opacity as its alpha and the colour's own red, green and blue. |
| `Paint.RenderDiscardsColorAlpha` | app/src/main/java/com/maxdejesus/ciscx82doodler/MainActivity.kt:167 | The colour's own alpha has no effect on the drawn colour: it is replaced, not multiplied. |
| `Paint.PickerOptionsWellFormed` | app/src/main/java/com/maxdejesus/ciscx82doodler/MainActivity.kt:238-241 | Every picker colour is in gamut with 8-bit channels, every brush size (line 279) is positive, every opacity (line 312) lies in (0, 1], and the defaults are well formed. |
| `History.DragStartOverwrites` | app/src/main/java/com/maxdejesus/ciscx82doodler/MainActivity.kt:139-143 | Drag start yields a fresh one-point path even when a path is already in progress, and touches nothing else. |
| `History.DragMoveAppends` | app/src/main/java/com/maxdejesus/ciscx82doodler/MainActivity.kt:144-146 | Drag move appends exactly its point when a path is in progress and is a no-op otherwise. |
| `History.DragEndCommits` | app/src/main/java/com/maxdejesus/ciscx82doodler/MainActivity.kt:147-159 | With a path in progress, one entry is appended and earlier entries are untouched; the entry pairs the path with the settings at drag end; the redo stack is emptied. Without one, nothing changes. `currentPath` is null after. |
| `History.UndoMovesLast` | app/src/main/java/com/maxdejesus/ciscx82doodler/MainActivity.kt:188-198 | Undo moves the last entry of `paths` to the end of `undonePaths` and changes nothing else; the total count is preserved; no-op when `paths` is empty. |
| `History.RedoMovesTop` | app/src/main/java/com/maxdejesus/ciscx82doodler/MainActivity.kt:199-209 | Redo moves the last entry of `undonePaths` to the end of `paths` and changes nothing else; the total count is preserved; no-op when the stack is empty. |
| `History.EnabledIffEffective` | app/src/main/java/com/maxdejesus/ciscx82doodler/MainActivity.kt:188-209 | Undo (Redo) changes the session if and only if its button is enabled, that is, its list is non-empty. |
| `History.UndoThenRedo` | app/src/main/java/com/maxdejesus/ciscx82doodler/MainActivity.kt:188-209 | On non-empty `paths`, undo followed by redo restores the session exactly. |
| `History.RedoThenUndo` | app/src/main/java/com/maxdejesus/ciscx82doodler/MainActivity.kt:188-209 | On a non-empty redo stack, redo followed by undo restores the session exactly. |
| `History.UndoRedoKeepTimeline` | app/src/main/java/com/maxdejesus/ciscx82doodler/MainActivity.kt:188-209 | Undo and redo keep `paths` followed by the reversed redo stack unchanged: strokes only move between the two tails. |
| `History.ClearDisablesHistory` | app/src/main/java/com/maxdejesus/ciscx82doodler/MainActivity.kt:59-62 | After clear, Undo and Redo are both disabled; the path in progress and the settings are unchanged. |
| `History.InvertedAllAt` | app/src/main/java/com/maxdejesus/ciscx82doodler/MainActivity.kt:226-231 | Inverting the list keeps its length, and entry k of the result is entry k of the input with its colour inverted. |
| `History.InvertColorsChangesOnlyColors` | app/src/main/java/com/maxdejesus/ciscx82doodler/MainActivity.kt:226-231 | Inversion keeps the length and every path, width and opacity, and replaces each colour by its complement. It touches neither `undonePaths` nor `currentColor` nor the path in progress. |
| `History.InvertedAllInvolution` | app/src/main/java/com/maxdejesus/ciscx82doodler/MainActivity.kt:217-231 | Inverting a list of strokes twice gives the list back. |
| `History.InvertColorsInvolution` | app/src/main/java/com/maxdejesus/ciscx82doodler/MainActivity.kt:217-231 | Two long presses restore the session exactly. |
| `Render.CommittedCallsAt` | app/src/main/java/com/maxdejesus/ciscx82doodler/MainActivity.kt:164-170 | There is one draw call per committed stroke, and call k draws stroke k. |
| `Render.FrameLayout` | app/src/main/java/com/maxdejesus/ciscx82doodler/MainActivity.kt:163-178 | Committed strokes are drawn in order, each with its own RGB, its opacity as alpha and its width. The stroke in progress comes last, with `currentColor`'s RGB, `currentAlpha` and `currentStrokeWidth`. |
| `Render.DragEndKeepsFrame` | app/src/main/java/com/maxdejesus/ciscx82doodler/MainActivity.kt:147-178 | Ending a drag never changes the drawn frame: the live stroke is drawn exactly as the entry it becomes. |
| `Trace.DragExtendsPath` | app/src/main/java/com/maxdejesus/ciscx82doodler/MainActivity.kt:144-146 | While a path is in progress, moves and picks append each move's position, in call order, and leave both lists alone. |
| `Trace.PathCollectsMoves` | app/src/main/java/com/maxdejesus/ciscx82doodler/MainActivity.kt:139-146 | Whatever events other than a start or an end arrive while a path is in progress (buttons, a long press, picks), the path collects exactly the moves' positions, in call order. |
| `Trace.StrokeCommittedAmidEvents` | app/src/main/java/com/maxdejesus/ciscx82doodler/MainActivity.kt:139-159 | A drag with any events between its start and end appends, after the strokes present at drag end, one entry of 1 + (number of moves) points in call order, with the settings at drag end; the redo stack is then empty. |
| `Trace.MovesWithoutStartIgnored` | app/src/main/java/com/maxdejesus/ciscx82doodler/MainActivity.kt:144-146 | Any number of moves with no path in progress leave the session unchanged. |
| `Trace.StrokeCommitted` | app/src/main/java/com/maxdejesus/ciscx82doodler/MainActivity.kt:139-159 | Start, moves and picks, then end: one entry is appended. Its path is the start point then one point per move, in order (1 + number of moves points). Its options are the settings at drag end. The redo stack is then empty. |
| `Trace.UndoRedoRunKeepsTimeline` | app/src/main/java/com/maxdejesus/ciscx82doodler/MainActivity.kt:188-209 | Any run of undo and redo presses keeps `paths` followed by the reversed redo stack. |
| `Trace.RedoAllRestoresTimeline` | app/src/main/java/com/maxdejesus/ciscx82doodler/MainActivity.kt:199-209 | Pressing Redo once per stacked stroke empties the stack and leaves `paths` equal to that timeline. |
| `Trace.InvertColorsKeepsStyle` | app/src/main/java/com/maxdejesus/ciscx82doodler/MainActivity.kt:226-231 | Inversion keeps every committed style well formed (colour in gamut with 8-bit channels, width positive, opacity in (0, 1]). |
| `Trace.StepKeepsStyle` | app/src/main/java/com/maxdejesus/ciscx82doodler/MainActivity.kt:59-231 | Every handler keeps all styles well formed when picks come from the picker lists. |
| `Trace.PickerRunsStayWellStyled` | app/src/main/java/com/maxdejesus/ciscx82doodler/MainActivity.kt:59-231 | Over any run of events whose picks come from the pickers, every current, committed and undone style stays well formed. |
| `Trace.InitialWellStyled` | app/src/main/java/com/maxdejesus/ciscx82doodler/MainActivity.kt:46-48 | The starting settings are well formed. |

## Left out

- `MainActivity.onCreate`, the Compose layout (scaffold, top bar, buttons, box) and the `remember`/`mutableStateListOf` reactivity are UI plumbing; the lists are plain fields of `DrawingSession`.
- The `showColorPicker`, `showBrushSizePicker` and `showOpacityPicker` flags and the dismiss callbacks only open and close dialogs; they are not modelled. Of the three dialog composables only their option lists are kept, as constants.
- Gesture detection (`detectDragGestures`, `detectTapGestures`) is platform code; its callbacks are the methods of `DrawingSession` and the events of `Trace.Event`.
- Rasterisation by `drawPath` is platform code; a frame is modelled as the sequence of draw calls (path, colour, width) it makes.
- Colour channels, coordinates, widths and opacities are exact reals, not 32-bit floats. Plain floats would not round-trip `1 - c` exactly. Compose's `Color(red, green, blue, alpha)` stores sRGB channels as 8-bit levels, so every colour the app holds is on the grid k/255, and inversion maps level k to 255 - k (`Paint.InvertColorKeepsByteGrid`). The float arithmetic and the rounding done by that packing are not modelled, and neither is the constructor's handling of values outside [0, 1]; the constructor is not part of this model.
- The drag detector is given no `onDragCancel` handler (MainActivity.kt:138-160). A cancelled drag therefore leaves `currentPath` set, drawn with the live settings, until the next drag start replaces it. The model has no cancel event and behaves the same way.
- A `Path` is a mutable platform object; here it is a sequence of points. After drag end `currentPath` is null, so no alias through which a committed path could change remains.
- `Paint.InvertColor`: its contract gives alpha and gamut preservation only; the involution is stated by `Paint.InvertColorInvolution`.
