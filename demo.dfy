/** The program's process-wide state and its per-frame operations: event
    handling, the rotation step, the two render passes and the frame step. */
module Demo {
  import opened Topology
  import opened Matrix4
  import opened Rotation
  import opened Render
  import opened Input
  import opened Scene

  class App {
    /** The grid resolution. */
    const dims: Dims

    /** The view flags. */
    var animate: bool
    var showGrid: bool
    var showSurface: bool
    var color2d: bool
    var color3d: bool

    /** The six plane angles, in radians. */
    const angle: array<real>

    /** The duration of the last frame, in seconds. */
    var dt: real

    /** The clock reading at the start of the last frame, in milliseconds. */
    var tBase: int

    /** The matrix applied to the grid points. */
    var mat: Matrix

    ghost predicate Valid()
      reads this
    {
      dims.Valid() && angle.Length == Planes
    }

    function View(): Flags
      reads this
    {
      Flags(animate, showGrid, showSurface, color2d, color3d)
    }

    /** The state at start-up, with the clock reading `t0`. */
    constructor (d: Dims, t0: int)
      requires d.Valid()
      ensures Valid() && fresh(angle)
      ensures dims == d && View() == InitialFlags
      ensures angle[..] == seq(Planes, _ => 0.0)
      ensures dt == 0.0 && tBase == t0 && mat == Zero()
    {
      dims := d;
      animate, showGrid, showSurface, color2d, color3d := true, true, false, true, false;
      angle := new real[Planes](_ => 0.0);
      dt := 0.0;
      tBase := t0;
      mat := Zero();
    }

    /** Drains the event queue: each event is handled in turn until a stop
        event, which ends the draining with `false` and leaves the events
        after it in the queue; a fully drained queue gives `true`. */
    method Events(queue: seq<Event>) returns (running: bool, rest: seq<Event>)
      modifies this`animate, this`showGrid, this`showSurface, this`color2d, this`color3d
      ensures var n := FirstStop(queue);
        && running == (n == |queue|)
        && rest == (if running then [] else queue[n + 1..])
        && View() == HandleAll(old(View()), queue[..n])
    {
      var n := 0;
      while n < |queue|
        invariant 0 <= n <= |queue|
        invariant forall k :: 0 <= k < n ==> !Stops(queue[k])
        invariant View() == HandleAll(old(View()), queue[..n])
      {
        assert queue[..n + 1][..n] == queue[..n];
        var e := queue[n];
        if Stops(e) {
          return false, queue[n + 1..];
        }
        match Toggled(e) {
          case Some(Animate) => animate := !animate;
          case Some(ShowGrid) => showGrid := !showGrid;
          case Some(ShowSurface) => showSurface := !showSurface;
          case Some(Color2d) => color2d := !color2d;
          case Some(Color3d) => color3d := !color3d;
          case None =>
        }
        n := n + 1;
      }
      return true, [];
    }

    /** Rebuilds `mat` from the identity by multiplying in, on the right, the
        six plane rotations built from the current angles, and advances each
        angle once its rotation is built. */
    method CalcRotationMatrix(cos: real -> real, sin: real -> real)
      requires Valid()
      modifies this`mat, angle
      ensures mat == Composite(old(angle[..]), cos, sin, Planes)
      ensures angle[..] == Advance(old(angle[..]), dt, animate)
    {
      ghost var start := angle[..];
      ghost var advanced := Advance(start, dt, animate);
      PairsDistinct();
      mat := Identity();
      var k := 0;
      while k != Planes
        invariant 0 <= k <= Planes
        invariant mat == Composite(start, cos, sin, k)
        invariant forall n :: 0 <= n < k ==> angle[n] == advanced[n]
        invariant forall n :: k <= n < Planes ==> angle[n] == start[n]
      {
        var c := cos(angle[k]);
        var s := sin(angle[k]);
        var rot := PlaneRotation(Pairs[k].0, Pairs[k].1, c, s);
        mat := Mul(mat, rot);
        assert mat == Composite(start, cos, sin, k + 1);
        AdvanceAt(start, dt, animate, k);
        if animate {
          angle[k] := angle[k] + dt * Speed[k];
        }
        k := k + 1;
      }
      assert angle[..] == advanced;
    }

    /** The wireframe pass, under the current matrix and colour flags. */
    method DrawGrid() returns (draw: Draw)
      requires Valid()
      ensures draw == Mesh(mat, GridShade(color2d, color3d), GridWire(dims))
    {
      var prims := GridPrimitives(dims);
      draw := Mesh(mat, GridShade(color2d, color3d), prims);
    }

    /** The surface pass: shrinks `mat` by the surface scale, then draws every
        quad with it. */
    method DrawSurface() returns (draw: Draw)
      requires Valid()
      modifies this`mat
      ensures mat == Scale(old(mat), SurfaceScale)
      ensures draw == Mesh(mat, Flat(SurfaceGrey), SurfaceQuads(dims))
    {
      mat := Scale(mat, SurfaceScale);
      var quads := SurfacePrimitives(dims);
      draw := Mesh(mat, Flat(SurfaceGrey), quads);
    }

    /** One frame at clock reading `tNow`: measures the elapsed time, shows
        the indicators, rotates, then draws the wireframe before the surface,
        so the surface's shrinking of `mat` never reaches the wireframe. */
    method Step(tNow: int, cos: real -> real, sin: real -> real) returns (frame: seq<Draw>)
      requires Valid()
      modifies this`dt, this`tBase, this`mat, angle
      ensures tBase == tNow && dt == (tNow - old(tBase)) as real * 0.001
      ensures angle[..] == Advance(old(angle[..]), dt, animate)
      ensures var m := Composite(old(angle[..]), cos, sin, Planes);
        && frame == IndicatorBank(View())
             + (if showGrid then [Mesh(m, GridShade(color2d, color3d), GridWire(dims))] else [])
             + (if showSurface then [Mesh(Scale(m, SurfaceScale), Flat(SurfaceGrey), SurfaceQuads(dims))] else [])
        && mat == (if showSurface then Scale(m, SurfaceScale) else m)
    {
      dt := (tNow - tBase) as real * 0.001;
      tBase := tNow;
      frame := IndicatorBank(View());
      CalcRotationMatrix(cos, sin);
      if showGrid {
        var grid := DrawGrid();
        frame := frame + [grid];
      }
      if showSurface {
        var surface := DrawSurface();
        frame := frame + [surface];
      }
    }
  }
}
