/** Sequences of user events and what they do to a session, for the
    properties that span several events: a stroke's points, the redo
    history, and the style invariant the pickers keep. */
module Trace {
  import opened Paint
  import opened History

  /** The events the drawing screen reacts to. */
  datatype Event =
    | Start(offset: Point)
    | Move(position: Point)
    | End
    | UndoClick
    | RedoClick
    | ClearClick
    | ColorSelected(color: Color)
    | SizeSelected(size: real)
    | AlphaSelected(alpha: real)
    | LongPress

  /** The session after one event. */
  function Step(s: Session, e: Event): Session {
    match e
    case Start(offset) => DragStart(s, offset)
    case Move(position) => DragMove(s, position)
    case End => DragEnd(s)
    case UndoClick => Undo(s)
    case RedoClick => Redo(s)
    case ClearClick => Clear(s)
    case ColorSelected(color) => SelectColor(s, color)
    case SizeSelected(size) => SelectStrokeWidth(s, size)
    case AlphaSelected(alpha) => SelectAlpha(s, alpha)
    case LongPress => InvertedSession(s)
  }

  /** The session after the events of `es`, in order. */
  function Run(s: Session, es: seq<Event>): Session
    decreases |es|
  {
    if es == [] then s else Run(Step(s, es[0]), es[1..])
  }

  lemma {:induction false} RunAppend(s: Session, a: seq<Event>, b: seq<Event>)
    ensures Run(s, a + b) == Run(Run(s, a), b)
    decreases |a|
  {
    if a == [] {
      assert a + b == b;
    } else {
      assert (a + b)[1..] == a[1..] + b;
      RunAppend(Step(s, a[0]), a[1..], b);
    }
  }

  // ---------------------------------------------------------------------
  // Strokes

  /** Events that may arrive between a drag's start and its end without
      ending it: moves, and picks from the three pickers. */
  predicate DuringDrag(e: Event) {
    e.Move? || e.ColorSelected? || e.SizeSelected? || e.AlphaSelected?
  }

  /** The positions of the moves in `es`, in order. */
  function MovedPoints(es: seq<Event>): seq<Point> {
    if es == [] then []
    else (if es[0].Move? then [es[0].position] else []) + MovedPoints(es[1..])
  }

  /** While a path is in progress, every move appends its position to it,
      in order, and nothing else reaches the histories. */
  lemma {:induction false} DragExtendsPath(s: Session, path: Path, es: seq<Event>)
    requires s.currentPath == Some(path)
    requires forall i :: 0 <= i < |es| ==> DuringDrag(es[i])
    ensures Run(s, es).currentPath == Some(path + MovedPoints(es))
    ensures Run(s, es).paths == s.paths
    ensures Run(s, es).undonePaths == s.undonePaths
    decreases |es|
  {
    if es == [] {
      assert path + [] == path;
    } else {
      var head := if es[0].Move? then [es[0].position] else [];
      assert !es[0].Move? ==> path + head == path;
      assert Step(s, es[0]).currentPath == Some(path + head);
      DragExtendsPath(Step(s, es[0]), path + head, es[1..]);
      assert path + head + MovedPoints(es[1..]) == path + MovedPoints(es);
    }
  }

  /** Moves that arrive with no path in progress change nothing. */
  lemma {:induction false} MovesWithoutStartIgnored(s: Session, es: seq<Event>)
    requires s.currentPath == None
    requires forall i :: 0 <= i < |es| ==> es[i].Move?
    ensures Run(s, es) == s
    decreases |es|
  {
    if es != [] {
      MovesWithoutStartIgnored(Step(s, es[0]), es[1..]);
    }
  }

  /** A drag from start to end commits one new entry after the earlier
      ones: the start point followed by one point per move, in call order,
      paired with the settings as they stand when the drag ends. The redo
      stack is then empty and no path is in progress. */
  lemma StrokeCommitted(s: Session, offset: Point, es: seq<Event>)
    requires forall i :: 0 <= i < |es| ==> DuringDrag(es[i])
    ensures var r := Run(s, [Start(offset)] + es + [End]);
      && r.paths == s.paths + [PathEntry([offset] + MovedPoints(es), Settings(r))]
      && |r.paths[|s.paths|].path| == 1 + |MovedPoints(es)|
      && r.undonePaths == []
      && r.currentPath == None
  {
    var started := Step(s, Start(offset));
    RunAppend(s, [Start(offset)], es);
    RunAppend(s, [Start(offset)] + es, [End]);
    DragExtendsPath(started, [offset], es);
    var beforeEnd := Run(s, [Start(offset)] + es);
    assert Run(s, [Start(offset)] + es + [End]) == DragEnd(beforeEnd);
  }

  /** Events that leave a drag in progress: anything but a start or an end.
      Buttons and a long press can arrive mid-drag as well as moves. */
  predicate KeepsDrag(e: Event) {
    !e.Start? && !e.End?
  }

  /** Whatever else arrives while a path is in progress, the path collects
      exactly the positions of the moves, in call order. */
  lemma {:induction false} PathCollectsMoves(s: Session, path: Path, es: seq<Event>)
    requires s.currentPath == Some(path)
    requires forall i :: 0 <= i < |es| ==> KeepsDrag(es[i])
    ensures Run(s, es).currentPath == Some(path + MovedPoints(es))
    decreases |es|
  {
    if es == [] {
      assert path + [] == path;
    } else {
      var head := if es[0].Move? then [es[0].position] else [];
      assert !es[0].Move? ==> path + head == path;
      assert Step(s, es[0]).currentPath == Some(path + head);
      PathCollectsMoves(Step(s, es[0]), path + head, es[1..]);
      assert path + head + MovedPoints(es[1..]) == path + MovedPoints(es);
    }
  }

  /** A drag with any events between its start and its end commits, after
      the strokes present at drag end, one entry: the start point followed
      by one point per move since that start, in call order, with the
      settings at drag end. The redo stack is then empty. */
  lemma StrokeCommittedAmidEvents(s: Session, offset: Point, es: seq<Event>)
    requires forall i :: 0 <= i < |es| ==> KeepsDrag(es[i])
    ensures var beforeEnd := Run(s, [Start(offset)] + es);
            var r := Run(s, [Start(offset)] + es + [End]);
      && r.paths == beforeEnd.paths + [PathEntry([offset] + MovedPoints(es), Settings(r))]
      && |r.paths[|beforeEnd.paths|].path| == 1 + |MovedPoints(es)|
      && r.undonePaths == []
      && r.currentPath == None
  {
    RunAppend(s, [Start(offset)], es);
    RunAppend(s, [Start(offset)] + es, [End]);
    PathCollectsMoves(Step(s, Start(offset)), [offset], es);
  }

  // ---------------------------------------------------------------------
  // Undo and redo over many presses

  /** Any run of undo and redo presses keeps the timeline: strokes only
      move between the tails of the two stacks. */
  lemma {:induction false} UndoRedoRunKeepsTimeline(s: Session, es: seq<Event>)
    requires forall i :: 0 <= i < |es| ==> es[i] == UndoClick || es[i] == RedoClick
    ensures Timeline(Run(s, es)) == Timeline(s)
    decreases |es|
  {
    if es != [] {
      UndoRedoKeepTimeline(s);
      UndoRedoRunKeepsTimeline(Step(s, es[0]), es[1..]);
    }
  }

  /** `n` presses of Redo. */
  function RedoPresses(n: nat): (es: seq<Event>)
    ensures |es| == n
    ensures forall i :: 0 <= i < n ==> es[i] == RedoClick
  {
    if n == 0 then [] else [RedoClick] + RedoPresses(n - 1)
  }

  /** Pressing Redo once per entry of the redo stack empties it and leaves
      the committed list equal to the timeline. */
  lemma {:induction false} RedoAllRestoresTimeline(s: Session)
    ensures Run(s, RedoPresses(|s.undonePaths|)).paths == Timeline(s)
    ensures Run(s, RedoPresses(|s.undonePaths|)).undonePaths == []
    decreases |s.undonePaths|
  {
    var n := |s.undonePaths|;
    if n == 0 {
      assert Timeline(s) == s.paths + [];
    } else {
      var t := Redo(s);
      UndoRedoKeepTimeline(s);
      assert |t.undonePaths| == n - 1;
      RedoAllRestoresTimeline(t);
      assert RedoPresses(n)[1..] == RedoPresses(n - 1);
    }
  }

  // ---------------------------------------------------------------------
  // Styles stay in range

  /** Every style the session holds, current or recorded, is well formed. */
  ghost predicate WellStyled(s: Session) {
    && WellFormed(Settings(s))
    && (forall e :: e in s.paths ==> WellFormed(e.paintOptions))
    && (forall e :: e in s.undonePaths ==> WellFormed(e.paintOptions))
  }

  /** Picks come from the pickers' option lists. */
  predicate FromPickers(e: Event) {
    match e
    case ColorSelected(color) => color in PICKER_COLORS
    case SizeSelected(size) => size in BRUSH_SIZES
    case AlphaSelected(alpha) => alpha in OPACITIES
    case _ => true
  }

  lemma InvertColorsKeepsStyle(s: Session)
    requires WellStyled(s)
    ensures WellStyled(InvertedSession(s))
  {
    var ps := InvertedSession(s).paths;
    InvertedAllLength(s.paths);
    forall e | e in ps
      ensures WellFormed(e.paintOptions)
    {
      var k :| 0 <= k < |ps| && ps[k] == e;
      InvertedAllAt(s.paths, k);
      assert s.paths[k] in s.paths;
      InvertColorKeepsByteGrid(s.paths[k].paintOptions.color);
    }
  }

  lemma StepKeepsStyle(s: Session, e: Event)
    requires WellStyled(s) && FromPickers(e)
    ensures WellStyled(Step(s, e))
  {
    PickerOptionsWellFormed();
    match e
    case UndoClick =>
      if CanUndo(s) {
        var n := |s.paths|;
        assert forall x :: x in s.paths[..n - 1] ==> x in s.paths;
        assert s.paths[n - 1] in s.paths;
      }
    case RedoClick =>
      if CanRedo(s) {
        var m := |s.undonePaths|;
        assert forall x :: x in s.undonePaths[..m - 1] ==> x in s.undonePaths;
        assert s.undonePaths[m - 1] in s.undonePaths;
      }
    case LongPress =>
      InvertColorsKeepsStyle(s);
    case _ =>
  }

  /** Starting from the initial session, if every pick comes from the
      pickers then every stroke ever committed or undone, and the current
      settings, have an in-gamut colour on the 8-bit grid, a positive width
      and an opacity in (0, 1]. */
  lemma {:induction false} PickerRunsStayWellStyled(s: Session, es: seq<Event>)
    requires WellStyled(s)
    requires forall i :: 0 <= i < |es| ==> FromPickers(es[i])
    ensures WellStyled(Run(s, es))
    decreases |es|
  {
    if es != [] {
      StepKeepsStyle(s, es[0]);
      PickerRunsStayWellStyled(Step(s, es[0]), es[1..]);
    }
  }

  /** The session the screen starts with is well styled. */
  lemma InitialWellStyled()
    ensures WellStyled(INITIAL)
  {
    PickerOptionsWellFormed();
  }
}
