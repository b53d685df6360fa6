/** What the canvas draws for a session: one `drawPath` call per committed
    stroke, oldest first, then one for the stroke in progress. Rasterising
    the calls is left to the platform. */
module Render {
  import opened Paint
  import opened History

  /** One `drawPath` call: the path, the colour and the stroke width. */
  datatype DrawCall = DrawCall(path: Path, color: Color, width: real)

  /** How a committed stroke is drawn: with its own colour, alpha replaced
      by its opacity, and its own width. */
  function DrawCallOf(e: PathEntry): DrawCall {
    DrawCall(e.path, RenderColor(e.paintOptions), e.paintOptions.strokeWidth)
  }

  /** The calls for the committed strokes, in paint order. */
  function CommittedCalls(ps: seq<PathEntry>): seq<DrawCall> {
    if ps == [] then [] else CommittedCalls(ps[..|ps| - 1]) + [DrawCallOf(ps[|ps| - 1])]
  }

  /** The call for the stroke in progress, drawn with the live settings. */
  function LiveCalls(s: Session): seq<DrawCall> {
    match s.currentPath
    case None => []
    case Some(path) => [DrawCall(path, s.currentColor.(alpha := s.currentAlpha), s.currentStrokeWidth)]
  }

  /** Everything one frame of the canvas draws, in order. */
  function Frame(s: Session): seq<DrawCall> {
    CommittedCalls(s.paths) + LiveCalls(s)
  }

  lemma {:induction false} CommittedCallsAt(ps: seq<PathEntry>, k: nat)
    requires k < |ps|
    ensures |CommittedCalls(ps)| == |ps|
    ensures CommittedCalls(ps)[k] == DrawCallOf(ps[k])
  {
    var n := |ps|;
    if k < n - 1 {
      CommittedCallsAt(ps[..n - 1], k);
    } else if n > 1 {
      CommittedCallsAt(ps[..n - 1], 0);
    }
  }

  /** A frame draws every committed stroke, in order, with its own RGB,
      its opacity as alpha and its own width; then the stroke in progress,
      if any, with the current colour, current opacity and current width. */
  lemma FrameLayout(s: Session)
    ensures |Frame(s)| == |s.paths| + (if s.currentPath.Some? then 1 else 0)
    ensures forall k :: 0 <= k < |s.paths| ==>
      && Frame(s)[k].path == s.paths[k].path
      && Frame(s)[k].color.(alpha := s.paths[k].paintOptions.color.alpha) == s.paths[k].paintOptions.color
      && Frame(s)[k].color.alpha == s.paths[k].paintOptions.alpha
      && Frame(s)[k].width == s.paths[k].paintOptions.strokeWidth
    ensures s.currentPath.Some? ==>
      && Frame(s)[|s.paths|].path == s.currentPath.value
      && Frame(s)[|s.paths|].color.(alpha := s.currentColor.alpha) == s.currentColor
      && Frame(s)[|s.paths|].color.alpha == s.currentAlpha
      && Frame(s)[|s.paths|].width == s.currentStrokeWidth
  {
    if s.paths == [] {
      assert CommittedCalls(s.paths) == [];
    } else {
      CommittedCallsAt(s.paths, 0);
    }
    forall k | 0 <= k < |s.paths|
      ensures Frame(s)[k] == DrawCallOf(s.paths[k])
    {
      CommittedCallsAt(s.paths, k);
    }
  }

  /** Ending a drag never changes what the canvas shows: the stroke in
      progress is drawn exactly as the entry it is committed as. */
  lemma DragEndKeepsFrame(s: Session)
    ensures Frame(DragEnd(s)) == Frame(s)
  {
  }
}
