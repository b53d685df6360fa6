/** The drawing screen's state and its event handlers, as an object whose
    fields the handlers update in place. Each handler is proved to leave
    the state the matching History function describes, so the lemmas of
    History, Render and Trace apply to every run of the screen. */
module DrawingApp {
  import opened Paint
  import opened History
  import Render

  class DrawingSession {
    var paths: seq<PathEntry>
    var undonePaths: seq<PathEntry>
    var currentPath: Option<Path>
    var currentColor: Color
    var currentStrokeWidth: real
    var currentAlpha: real

    /** The fields read as one session value. */
    function State(): Session
      reads this
    {
      Session(paths, undonePaths, currentPath, currentColor, currentStrokeWidth, currentAlpha)
    }

    /** Empty histories, nothing in progress, black, width 5, opaque. */
    constructor ()
      ensures State() == INITIAL
    {
      paths := [];
      undonePaths := [];
      currentPath := None;
      currentColor := DEFAULT_COLOR;
      currentStrokeWidth := DEFAULT_STROKE_WIDTH;
      currentAlpha := DEFAULT_ALPHA;
    }

    /** A drag begins at `offset`: a fresh path holding only that point
        replaces any path in progress. */
    method OnDragStart(offset: Point)
      modifies this
      ensures currentPath == Some([offset])
      ensures State() == DragStart(old(State()), offset)
    {
      currentPath := Some([offset]);
    }

    /** The pointer moves to `position` during a drag. */
    method OnDrag(position: Point)
      modifies this
      ensures old(currentPath).None? ==> State() == old(State())
      ensures old(currentPath).Some? ==> currentPath == Some(old(currentPath).value + [position])
      ensures State() == DragMove(old(State()), position)
    {
      if currentPath.Some? {
        currentPath := Some(currentPath.value + [position]);
      }
    }

    /** The drag ends: the path in progress, if any, is committed with the
        current settings and the redo stack is emptied. */
    method OnDragEnd()
      modifies this
      ensures currentPath == None
      ensures old(currentPath).Some? ==>
        && paths == old(paths) + [PathEntry(old(currentPath).value,
                                            PaintOptions(currentColor, currentStrokeWidth, currentAlpha))]
        && undonePaths == []
      ensures State() == DragEnd(old(State()))
    {
      if currentPath.Some? {
        var path := currentPath.value;
        paths := paths + [PathEntry(path, PaintOptions(currentColor, currentStrokeWidth, currentAlpha))];
        undonePaths := [];
      }
      currentPath := None;
    }

    /** The Undo button is enabled exactly when there is a stroke to undo. */
    method UndoEnabled() returns (enabled: bool)
      ensures enabled <==> CanUndo(State())
      ensures enabled <==> State() != Undo(State())
    {
      enabled := |paths| != 0;
    }

    /** The Redo button is enabled exactly when there is a stroke to redo. */
    method RedoEnabled() returns (enabled: bool)
      ensures enabled <==> CanRedo(State())
      ensures enabled <==> State() != Redo(State())
    {
      enabled := |undonePaths| != 0;
    }

    /** Undo pressed: the last committed stroke moves to the redo stack. */
    method OnUndoClick()
      modifies this
      ensures |paths| + |undonePaths| == |old(paths)| + |old(undonePaths)|
      ensures State() == Undo(old(State()))
    {
      if |paths| != 0 {
        var lastPath := paths[|paths| - 1];
        paths := paths[..|paths| - 1];
        undonePaths := undonePaths + [lastPath];
      }
    }

    /** Redo pressed: the top of the redo stack returns to the strokes. */
    method OnRedoClick()
      modifies this
      ensures |paths| + |undonePaths| == |old(paths)| + |old(undonePaths)|
      ensures State() == Redo(old(State()))
    {
      if |undonePaths| != 0 {
        var pathToRestore := undonePaths[|undonePaths| - 1];
        undonePaths := undonePaths[..|undonePaths| - 1];
        paths := paths + [pathToRestore];
      }
    }

    /** Clear pressed: both histories are emptied. */
    method OnClearClick()
      modifies this
      ensures paths == [] && undonePaths == []
      ensures State() == Clear(old(State()))
    {
      paths := [];
      undonePaths := [];
    }

    /** A colour is picked. */
    method OnColorSelected(color: Color)
      modifies this
      ensures State() == SelectColor(old(State()), color)
    {
      currentColor := color;
    }

    /** A brush size is picked. */
    method OnSizeSelected(size: real)
      modifies this
      ensures State() == SelectStrokeWidth(old(State()), size)
    {
      currentStrokeWidth := size;
    }

    /** An opacity is picked. */
    method OnAlphaSelected(alpha: real)
      modifies this
      ensures State() == SelectAlpha(old(State()), alpha)
    {
      currentAlpha := alpha;
    }

    /** Long press: each committed stroke, by index, is replaced by the same
        path with its colour inverted; nothing else changes. */
    method InvertColors()
      modifies this
      ensures |paths| == |old(paths)|
      ensures forall k :: 0 <= k < |paths| ==> paths[k] == InvertEntry(old(paths)[k])
      ensures State() == InvertedSession(old(State()))
    {
      var i := 0;
      while i < |paths|
        invariant 0 <= i <= |paths| == |old(paths)|
        invariant forall k :: 0 <= k < i ==> paths[k] == InvertEntry(old(paths)[k])
        invariant forall k :: i <= k < |paths| ==> paths[k] == old(paths)[k]
        invariant State().(paths := old(paths)) == old(State())
      {
        var entry := paths[i];
        paths := paths[i := PathEntry(entry.path, entry.paintOptions.(color := InvertColor(entry.paintOptions.color)))];
        i := i + 1;
      }
      InvertedAllLength(old(paths));
      forall k | 0 <= k < |paths|
        ensures paths[k] == InvertedAll(old(paths))[k]
      {
        InvertedAllAt(old(paths), k);
      }
    }

    /** The `drawPath` calls of one frame: every committed stroke in order,
        then the stroke in progress with the live settings. */
    method Draw() returns (calls: seq<Render.DrawCall>)
      ensures calls == Render.Frame(State())
    {
      calls := [];
      var i := 0;
      while i < |paths|
        invariant 0 <= i <= |paths|
        invariant calls == Render.CommittedCalls(paths[..i])
      {
        var entry := paths[i];
        calls := calls + [Render.DrawCall(entry.path,
                                          entry.paintOptions.color.(alpha := entry.paintOptions.alpha),
                                          entry.paintOptions.strokeWidth)];
        assert paths[..i + 1][..i] == paths[..i];
        i := i + 1;
      }
      assert paths[..i] == paths;
      if currentPath.Some? {
        calls := calls + [Render.DrawCall(currentPath.value, currentColor.(alpha := currentAlpha), currentStrokeWidth)];
      }
    }
  }
}
