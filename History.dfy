/** The drawing session as a value: committed strokes, the redo stack,
    the stroke being drawn and the current settings, with one function
    per event handler describing the state that handler leaves behind.
    The class DrawingApp.DrawingSession is proved against these. */
module History {
  import opened Paint

  datatype Option<T> = None | Some(value: T)

  /** A position on the canvas. */
  datatype Point = Point(x: real, y: real)

  /** A freehand path: the point of its `moveTo` followed by the point of
      every `lineTo`, in call order. */
  type Path = seq<Point>

  /** A committed stroke: its path paired with the options it is drawn with. */
  datatype PathEntry = PathEntry(path: Path, paintOptions: PaintOptions)

  /** Everything the drawing screen remembers between events. */
  datatype Session = Session(
    paths: seq<PathEntry>,        // committed strokes, oldest first
    undonePaths: seq<PathEntry>,  // the redo stack, its top last
    currentPath: Option<Path>,    // the stroke being dragged, if any
    currentColor: Color,
    currentStrokeWidth: real,
    currentAlpha: real)

  /** The session as the screen first shows it. */
  const INITIAL := Session([], [], None, DEFAULT_COLOR, DEFAULT_STROKE_WIDTH, DEFAULT_ALPHA)

  /** The options a stroke committed now would receive. */
  function Settings(s: Session): PaintOptions {
    PaintOptions(s.currentColor, s.currentStrokeWidth, s.currentAlpha)
  }

  /** Drag start: a new one-point path replaces whatever was in progress. */
  function DragStart(s: Session, offset: Point): Session {
    s.(currentPath := Some([offset]))
  }

  /** Drag move: a line to `position` extends the path in progress, if any. */
  function DragMove(s: Session, position: Point): Session {
    match s.currentPath
    case None => s
    case Some(path) => s.(currentPath := Some(path + [position]))
  }

  /** Drag end: the path in progress, if any, is committed with the
      settings as they stand now, and the redo stack is emptied; in every
      case no path is in progress afterwards. */
  function DragEnd(s: Session): Session {
    match s.currentPath
    case None => s
    case Some(path) =>
      s.(paths := s.paths + [PathEntry(path, Settings(s))], undonePaths := [], currentPath := None)
  }

  /** Undo: the last committed stroke moves onto the redo stack. */
  function Undo(s: Session): Session {
    if s.paths == [] then s
    else
      var last := s.paths[|s.paths| - 1];
      s.(paths := s.paths[..|s.paths| - 1], undonePaths := s.undonePaths + [last])
  }

  /** Redo: the top of the redo stack goes back onto the committed strokes. */
  function Redo(s: Session): Session {
    if s.undonePaths == [] then s
    else
      var top := s.undonePaths[|s.undonePaths| - 1];
      s.(paths := s.paths + [top], undonePaths := s.undonePaths[..|s.undonePaths| - 1])
  }

  /** Clear: both histories are emptied. */
  function Clear(s: Session): Session {
    s.(paths := [], undonePaths := [])
  }

  function SelectColor(s: Session, color: Color): Session {
    s.(currentColor := color)
  }

  function SelectStrokeWidth(s: Session, size: real): Session {
    s.(currentStrokeWidth := size)
  }

  function SelectAlpha(s: Session, alpha: real): Session {
    s.(currentAlpha := alpha)
  }

  /** An entry with its colour inverted and everything else kept. */
  function InvertEntry(e: PathEntry): PathEntry {
    e.(paintOptions := e.paintOptions.(color := InvertColor(e.paintOptions.color)))
  }

  /** Every entry of `ps` inverted, in order. */
  function InvertedAll(ps: seq<PathEntry>): seq<PathEntry> {
    if ps == [] then [] else [InvertEntry(ps[0])] + InvertedAll(ps[1..])
  }

  /** Long press: the colours of the committed strokes are inverted. */
  function InvertedSession(s: Session): Session {
    s.(paths := InvertedAll(s.paths))
  }

  /** Whether the Undo and Redo buttons are enabled. */
  predicate CanUndo(s: Session) {
    s.paths != []
  }

  predicate CanRedo(s: Session) {
    s.undonePaths != []
  }

  /** The last element first. */
  function Reversed<T>(xs: seq<T>): seq<T> {
    if xs == [] then [] else [xs[|xs| - 1]] + Reversed(xs[..|xs| - 1])
  }

  /** The committed strokes followed by the redo stack from its top down:
      the strokes the committed list would hold after redoing everything. */
  function Timeline(s: Session): seq<PathEntry> {
    s.paths + Reversed(s.undonePaths)
  }

  // ---------------------------------------------------------------------
  // Drawing a stroke

  /** Drag start always yields a fresh one-point path, whether or not a
      path was already in progress, and touches nothing else. */
  lemma DragStartOverwrites(s: Session, offset: Point)
    ensures DragStart(s, offset).currentPath == Some([offset])
    ensures DragStart(s, offset).(currentPath := s.currentPath) == s
  {
  }

  /** Drag move appends exactly its point to the path in progress, and is
      a no-op when there is none. */
  lemma DragMoveAppends(s: Session, position: Point)
    ensures s.currentPath.None? ==> DragMove(s, position) == s
    ensures s.currentPath.Some? ==>
      DragMove(s, position) == s.(currentPath := Some(s.currentPath.value + [position]))
  {
  }

  /** Drag end with a path in progress appends exactly one entry, that path
      with the settings as they stand at drag end, leaves the earlier
      entries as they were, and empties the redo stack; without a path in
      progress it changes nothing. Either way no path is in progress after. */
  lemma DragEndCommits(s: Session)
    ensures DragEnd(s).currentPath == None
    ensures Settings(DragEnd(s)) == Settings(s)
    ensures s.currentPath.None? ==> DragEnd(s) == s
    ensures s.currentPath.Some? ==>
      && |DragEnd(s).paths| == |s.paths| + 1
      && DragEnd(s).paths[..|s.paths|] == s.paths
      && DragEnd(s).paths[|s.paths|] == PathEntry(s.currentPath.value, Settings(s))
      && DragEnd(s).undonePaths == []
  {
  }

  // ---------------------------------------------------------------------
  // Undo and redo

  /** Undo moves the last committed entry to the top of the redo stack, or
      does nothing when there is none; no entry is lost or made up. */
  lemma UndoMovesLast(s: Session)
    ensures |Undo(s).paths| + |Undo(s).undonePaths| == |s.paths| + |s.undonePaths|
    ensures !CanUndo(s) ==> Undo(s) == s
    ensures CanUndo(s) ==>
      && Undo(s).paths + [s.paths[|s.paths| - 1]] == s.paths
      && Undo(s).undonePaths == s.undonePaths + [s.paths[|s.paths| - 1]]
      && Undo(s).(paths := s.paths, undonePaths := s.undonePaths) == s
  {
  }

  /** Redo moves the top of the redo stack to the end of the committed
      entries, or does nothing when the stack is empty. */
  lemma RedoMovesTop(s: Session)
    ensures |Redo(s).paths| + |Redo(s).undonePaths| == |s.paths| + |s.undonePaths|
    ensures !CanRedo(s) ==> Redo(s) == s
    ensures CanRedo(s) ==>
      && Redo(s).undonePaths + [s.undonePaths[|s.undonePaths| - 1]] == s.undonePaths
      && Redo(s).paths == s.paths + [s.undonePaths[|s.undonePaths| - 1]]
      && Redo(s).(paths := s.paths, undonePaths := s.undonePaths) == s
  {
  }

  /** A button is enabled exactly when pressing it changes the session. */
  lemma EnabledIffEffective(s: Session)
    ensures CanUndo(s) <==> Undo(s) != s
    ensures CanRedo(s) <==> Redo(s) != s
  {
  }

  /** Undo then redo restores the session exactly. */
  lemma UndoThenRedo(s: Session)
    requires CanUndo(s)
    ensures Redo(Undo(s)) == s
  {
  }

  /** Redo then undo restores the session exactly. */
  lemma RedoThenUndo(s: Session)
    requires CanRedo(s)
    ensures Undo(Redo(s)) == s
  {
  }

  /** Undo and redo only move entries between the two stacks at their
      tails: the committed entries followed by the redo stack read from its
      top keep the same order and contents. */
  lemma UndoRedoKeepTimeline(s: Session)
    ensures Timeline(Undo(s)) == Timeline(s)
    ensures Timeline(Redo(s)) == Timeline(s)
  {
  }

  /** After clear neither button is enabled, and the path in progress and
      the settings are as before. */
  lemma ClearDisablesHistory(s: Session)
    ensures !CanUndo(Clear(s)) && !CanRedo(Clear(s))
    ensures Clear(s).currentPath == s.currentPath
    ensures Settings(Clear(s)) == Settings(s)
  {
  }

  // ---------------------------------------------------------------------
  // Palette inversion

  /** Entry k of the inverted list is entry k of the list, inverted. */
  lemma {:induction false} InvertedAllAt(ps: seq<PathEntry>, k: nat)
    requires k < |ps|
    ensures |InvertedAll(ps)| == |ps|
    ensures InvertedAll(ps)[k] == InvertEntry(ps[k])
  {
    if k > 0 {
      InvertedAllAt(ps[1..], k - 1);
    } else if |ps| > 1 {
      InvertedAllAt(ps[1..], 0);
    }
  }

  lemma {:induction false} InvertedAllLength(ps: seq<PathEntry>)
    ensures |InvertedAll(ps)| == |ps|
  {
    if ps != [] {
      InvertedAllLength(ps[1..]);
    }
  }

  /** Inversion keeps the number of entries and every path, stroke width
      and opacity, replaces each colour by its complement, and leaves the
      redo stack, the path in progress and the current colour alone. */
  lemma InvertColorsChangesOnlyColors(s: Session)
    ensures |InvertedSession(s).paths| == |s.paths|
    ensures forall k :: 0 <= k < |s.paths| ==>
      && InvertedSession(s).paths[k].path == s.paths[k].path
      && InvertedSession(s).paths[k].paintOptions.strokeWidth == s.paths[k].paintOptions.strokeWidth
      && InvertedSession(s).paths[k].paintOptions.alpha == s.paths[k].paintOptions.alpha
      && InvertedSession(s).paths[k].paintOptions.color == InvertColor(s.paths[k].paintOptions.color)
    ensures InvertedSession(s).(paths := s.paths) == s
  {
    InvertedAllLength(s.paths);
    forall k | 0 <= k < |s.paths|
      ensures InvertedSession(s).paths[k] == InvertEntry(s.paths[k])
    {
      InvertedAllAt(s.paths, k);
    }
  }

  lemma {:induction false} InvertedAllInvolution(ps: seq<PathEntry>)
    ensures InvertedAll(InvertedAll(ps)) == ps
  {
    if ps != [] {
      InvertedAllInvolution(ps[1..]);
      InvertColorInvolution(ps[0].paintOptions.color);
      assert [ps[0]] + ps[1..] == ps;
    }
  }

  /** Inverting twice restores every committed stroke. */
  lemma InvertColorsInvolution(s: Session)
    ensures InvertedSession(InvertedSession(s)) == s
  {
    InvertedAllInvolution(s.paths);
  }
}
