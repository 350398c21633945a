/**
 * The whiteboard's page state and its event handlers, as a pure
 * specification: one `Step` per event gives the next state and the line
 * segments the event strokes onto the canvas. The class in module `Page`
 * implements the same handlers by updating fields in place and is proved
 * against `Step`.
 */
module Gestures {
  import opened Colors

  /** One `drawLine` call: the segment and the stroke style in force when it was drawn. */
  datatype Segment = Segment(x1: int, y1: int, x2: int, y2: int, strokeStyle: string, lineWidth: int)

  /** The page's globals `drawing`, `currentTool`, `color`, `lastX` and `lastY`. */
  datatype State = State(drawing: bool, tool: string, color: string, lastX: int, lastY: int)

  /** The globals as the script initialises them. */
  const Initial := State(false, "pen", "#000000", 0, 0)

  /**
   * The events the script listens to. Pointer coordinates are canvas-local
   * (for touches, already offset by the canvas's bounding rectangle).
   */
  datatype Event =
    | MouseDown(x: int, y: int)
    | MouseMove(x: int, y: int)
    | MouseUp
    | MouseLeave
    | TouchStart(x: int, y: int)
    | TouchMove(x: int, y: int)
    | TouchEnd
    | TouchCancel
    | ToolChange(value: string)
    | PickerInput(value: string)
    | HexChange(value: string)
    | RgbChange(parts: seq<int>)
  {
    predicate IsPress() { MouseDown? || TouchStart? }
    predicate IsMove() { MouseMove? || TouchMove? }
    predicate IsRelease() { MouseUp? || MouseLeave? || TouchEnd? || TouchCancel? }
    /** A native colour picker only ever reports a `#rrggbb` value. */
    predicate WellFormed() { PickerInput? ==> IsValidHex(value) }
  }

  /** What one event does: the next state and the segments it draws, in order. */
  datatype Reaction = Reaction(next: State, ink: seq<Segment>)

  /** The tools that paint while the pointer moves. */
  predicate IsContinuous(tool: string) {
    tool == "pen" || tool == "marker" || tool == "eraser"
  }

  /** `drawLine`'s stroke colour: the eraser paints white, every other tool the current colour. */
  function StrokeStyle(tool: string, color: string): string {
    if tool == "eraser" then "#ffffff" else color
  }

  /** `drawLine`'s line width: 10 for the marker, 2 otherwise. */
  function LineWidth(tool: string): int {
    if tool == "marker" then 10 else 2
  }

  /** The segment `drawLine(x1, y1, x2, y2)` strokes under the given tool and colour. */
  function Line(tool: string, color: string, x1: int, y1: int, x2: int, y2: int): Segment {
    Segment(x1, y1, x2, y2, StrokeStyle(tool, color), LineWidth(tool))
  }

  /** The colour after a hex-field change: adopted only when it passes the pattern. */
  function AfterHexChange(color: string, value: string): (c: string)
    ensures IsValidHex(value) ==> c == value
    ensures !IsValidHex(value) ==> c == color
  {
    if IsValidHex(value) then value else color
  }

  /** The colour after an RGB-field change: the encoded triple, only when it passes the range check. */
  function AfterRgbChange(color: string, parts: seq<int>): (c: string)
    ensures IsValidRgb(parts) ==> IsValidHex(c) && Decode(c) == (parts[0], parts[1], parts[2])
    ensures IsValidRgb(parts) ==> IsLowerHex(c)
    ensures !IsValidRgb(parts) ==> c == color
  {
    if IsValidRgb(parts) then DecodeEncode(parts); EncodeShape(parts); Encode(parts) else color
  }

  /** The effect of one event on the page. */
  function Step(s: State, e: Event): Reaction {
    match e
    case MouseDown(x, y) => Reaction(s.(drawing := true, lastX := x, lastY := y), [])
    case TouchStart(x, y) => Reaction(s.(drawing := true, lastX := x, lastY := y), [])
    case MouseMove(x, y) => Move(s, x, y)
    case TouchMove(x, y) => Move(s, x, y)
    case MouseUp => Reaction(s.(drawing := false), [])
    case MouseLeave => Reaction(s.(drawing := false), [])
    case TouchEnd => Reaction(s.(drawing := false), [])
    case TouchCancel => Reaction(s.(drawing := false), [])
    case ToolChange(v) => Reaction(s.(tool := v), [])
    case PickerInput(v) => Reaction(s.(color := v), [])
    case HexChange(v) => Reaction(s.(color := AfterHexChange(s.color, v)), [])
    case RgbChange(parts) => Reaction(s.(color := AfterRgbChange(s.color, parts)), [])
  }

  /** A move: ignored unless drawing; with a continuous tool, one segment from the last point. */
  function Move(s: State, x: int, y: int): Reaction {
    if !s.drawing then Reaction(s, [])
    else if IsContinuous(s.tool) then
      Reaction(s.(lastX := x, lastY := y), [Line(s.tool, s.color, s.lastX, s.lastY, x, y)])
    else Reaction(s, [])
  }

  /** The effect of a sequence of events, one after another. */
  function Run(s: State, evs: seq<Event>): (r: Reaction)
    ensures |r.ink| <= |evs|
    decreases |evs|
  {
    if evs == [] then Reaction(s, [])
    else
      var first := Step(s, evs[0]);
      var rest := Run(first.next, evs[1..]);
      Reaction(rest.next, first.ink + rest.ink)
  }

  predicate AllMoves(evs: seq<Event>) {
    forall i :: 0 <= i < |evs| ==> evs[i].IsMove()
  }

  predicate AllWellFormed(evs: seq<Event>) {
    forall i :: 0 <= i < |evs| ==> evs[i].WellFormed()
  }

  /** A segment the canvas can receive: a valid hex colour and one of the two widths. */
  predicate WellStyled(seg: Segment) {
    IsValidHex(seg.strokeStyle) && (seg.lineWidth == 2 || seg.lineWidth == 10)
  }

  /** Running two sequences back to back is running their concatenation. */
  lemma {:induction false} RunAppend(s: State, a: seq<Event>, b: seq<Event>)
    ensures var ra := Run(s, a); var rb := Run(ra.next, b);
      Run(s, a + b) == Reaction(rb.next, ra.ink + rb.ink)
    decreases |a|
  {
    if a != [] {
      var first := Step(s, a[0]);
      assert (a + b)[0] == a[0];
      assert (a + b)[1..] == a[1..] + b;
      RunAppend(first.next, a[1..], b);
      var ra, rb := Run(first.next, a[1..]), Run(Run(s, a).next, b);
      assert Run(s, a) == Reaction(ra.next, first.ink + ra.ink);
      assert first.ink + ra.ink + rb.ink == first.ink + (ra.ink + rb.ink);
    } else {
      assert a + b == b;
    }
  }

  /**
   * An event strokes at most one segment, and it strokes one exactly when it
   * is a move while drawing with a continuous tool; only a tool change
   * changes the tool, and only a colour event changes the colour.
   */
  lemma StepInk(s: State, e: Event)
    ensures |Step(s, e).ink| <= 1
    ensures |Step(s, e).ink| == 1 <==> e.IsMove() && s.drawing && IsContinuous(s.tool)
    ensures Step(s, e).next.tool == (if e.ToolChange? then e.value else s.tool)
    ensures !(e.PickerInput? || e.HexChange? || e.RgbChange?) ==> Step(s, e).next.color == s.color
  {
  }

  /** The stroke colour is white exactly for the eraser or when the colour itself is white; the width is 10 exactly for the marker. */
  lemma StyleOfTool(tool: string, color: string)
    ensures StrokeStyle(tool, color) == "#ffffff" <==> tool == "eraser" || color == "#ffffff"
    ensures tool != "eraser" ==> StrokeStyle(tool, color) == color
    ensures LineWidth(tool) == 10 <==> tool == "marker"
    ensures LineWidth(tool) == 2 <==> tool != "marker"
  {
  }

  /** One well-formed event keeps the colour a valid hex string and strokes only well-styled segments. */
  lemma StepKeepsColourValid(s: State, e: Event)
    requires IsValidHex(s.color) && e.WellFormed()
    ensures IsValidHex(Step(s, e).next.color)
    ensures forall i :: 0 <= i < |Step(s, e).ink| ==> WellStyled(Step(s, e).ink[i])
  {
    assert IsValidHex("#ffffff");
  }

  /** From a valid colour, any run of well-formed events strokes only well-styled segments. */
  lemma {:induction false} RunKeepsColourValid(s: State, evs: seq<Event>)
    requires IsValidHex(s.color) && AllWellFormed(evs)
    ensures IsValidHex(Run(s, evs).next.color)
    ensures forall i :: 0 <= i < |Run(s, evs).ink| ==> WellStyled(Run(s, evs).ink[i])
    decreases |evs|
  {
    if evs != [] {
      StepKeepsColourValid(s, evs[0]);
      RunKeepsColourValid(Step(s, evs[0]).next, evs[1..]);
    }
  }

  /** A move event behaves as `Move` at its point. */
  lemma StepMove(s: State, e: Event)
    requires e.IsMove()
    ensures Step(s, e) == Move(s, e.x, e.y)
  {
  }

  /** Moves that arrive while not drawing, or while a non-continuous tool is selected, change nothing and draw nothing. */
  lemma {:induction false} MovesWithoutInk(s: State, evs: seq<Event>)
    requires AllMoves(evs)
    requires !s.drawing || !IsContinuous(s.tool)
    ensures Run(s, evs) == Reaction(s, [])
    decreases |evs|
  {
    if evs != [] {
      StepMove(s, evs[0]);
      MovesWithoutInk(s, evs[1..]);
    }
  }

  /**
   * The polyline a continuous tool should draw for the move points `evs`,
   * starting at (x, y): one segment per move, each from the previous point.
   */
  function Trace(tool: string, color: string, x: int, y: int, evs: seq<Event>): seq<Segment>
    requires AllMoves(evs)
    decreases |evs|
  {
    if evs == [] then []
    else [Line(tool, color, x, y, evs[0].x, evs[0].y)] + Trace(tool, color, evs[0].x, evs[0].y, evs[1..])
  }

  /**
   * `Trace` is a connected polyline: one segment per move, the first from
   * the start point, each later one from the previous move's point, each
   * ending at its own move, all in the tool's style.
   */
  lemma {:induction false} TraceChained(tool: string, color: string, x: int, y: int, evs: seq<Event>)
    requires AllMoves(evs)
    ensures var t := Trace(tool, color, x, y, evs);
      && |t| == |evs|
      && (forall i :: 0 <= i < |evs| ==>
            t[i].x2 == evs[i].x && t[i].y2 == evs[i].y
            && t[i].strokeStyle == StrokeStyle(tool, color) && t[i].lineWidth == LineWidth(tool))
      && (|evs| > 0 ==> t[0].x1 == x && t[0].y1 == y)
      && (forall i :: 0 < i < |evs| ==> t[i].x1 == evs[i - 1].x && t[i].y1 == evs[i - 1].y)
    decreases |evs|
  {
    if evs != [] {
      var rest := evs[1..];
      TraceChained(tool, color, evs[0].x, evs[0].y, rest);
      var t := Trace(tool, color, x, y, evs);
      var t' := Trace(tool, color, evs[0].x, evs[0].y, rest);
      assert t == [Line(tool, color, x, y, evs[0].x, evs[0].y)] + t';
      forall i | 0 < i < |evs|
        ensures t[i].x1 == evs[i - 1].x && t[i].y1 == evs[i - 1].y
      {
        assert t[i] == t'[i - 1];
        if i > 1 {
          assert evs[i - 1] == rest[i - 2];
        }
      }
    }
  }

  /**
   * Moves while drawing with a continuous tool stroke exactly `Trace` from
   * the last point, in the current tool and colour, and leave the last
   * point at the final move; nothing else changes.
   */
  lemma {:induction false} StrokeFollowsPointer(s: State, evs: seq<Event>)
    requires AllMoves(evs)
    requires s.drawing && IsContinuous(s.tool)
    ensures Run(s, evs).ink == Trace(s.tool, s.color, s.lastX, s.lastY, evs)
    ensures Run(s, evs).next ==
      if evs == [] then s else s.(lastX := evs[|evs| - 1].x, lastY := evs[|evs| - 1].y)
    decreases |evs|
  {
    if evs != [] {
      var s' := s.(lastX := evs[0].x, lastY := evs[0].y);
      StepMove(s, evs[0]);
      StrokeFollowsPointer(s', evs[1..]);
    }
  }

  /**
   * A whole gesture with a continuous tool: press, any number of moves, then
   * a release. It strokes exactly `Trace` from the press point, and ends not
   * drawing with the tool and colour unchanged.
   */
  lemma Gesture(s: State, press: Event, moves: seq<Event>, release: Event)
    requires press.IsPress() && AllMoves(moves) && release.IsRelease()
    requires IsContinuous(s.tool)
    ensures var r := Run(s, [press] + moves + [release]);
      && r.ink == Trace(s.tool, s.color, press.x, press.y, moves)
      && !r.next.drawing && r.next.tool == s.tool && r.next.color == s.color
  {
    var down := s.(drawing := true, lastX := press.x, lastY := press.y);
    assert Step(s, press) == Reaction(down, []);
    assert Run(s, [press]) == Reaction(down, []);
    RunAppend(s, [press], moves);
    StrokeFollowsPointer(down, moves);
    var mid := Run(s, [press] + moves);
    assert mid.ink == Trace(s.tool, s.color, press.x, press.y, moves);
    assert Step(mid.next, release) == Reaction(mid.next.(drawing := false), []);
    assert Run(mid.next, [release]) == Reaction(mid.next.(drawing := false), []);
    RunAppend(s, [press] + moves, [release]);
  }

  /** After any release, further moves draw nothing until the next press. */
  lemma ReleaseStopsInk(s: State, release: Event, moves: seq<Event>)
    requires release.IsRelease() && AllMoves(moves)
    ensures Run(s, [release] + moves) == Reaction(s.(drawing := false), [])
  {
    assert Run(s, [release]) == Reaction(s.(drawing := false), []);
    RunAppend(s, [release], moves);
    MovesWithoutInk(s.(drawing := false), moves);
  }

  /** A press re-anchors at its own point and turns drawing on, whatever the state was, even mid-gesture. */
  lemma PressAnchors(s: State, press: Event)
    requires press.IsPress()
    ensures Step(s, press) == Reaction(State(true, s.tool, s.color, press.x, press.y), [])
  {
  }
}
