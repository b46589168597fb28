/** What one frame puts on the screen: the five status indicators and the
    meshes of the render passes, each with the matrix applied to its points
    and the way its vertices are coloured. */
module Scene {
  import opened Matrix4
  import opened Render
  import opened Input

  datatype Color = Rgba(r: real, g: real, b: real, a: real)

  function Opaque(r: real, g: real, b: real): Color {
    Rgba(r, g, b, 1.0)
  }

  /** How the vertices of a mesh are coloured. */
  datatype Shade =
    | Flat(color: Color)  // one colour set before the pass
    | ByParameter         // a function of the vertex's own cell indices
    | ByDepth             // from the z and w coordinates of the transformed point

  /** One item of a frame. A mesh vertex named by cell (j, i) is drawn at
      `transform` applied to the grid point of that cell. */
  datatype Draw =
    | Indicator(slot: nat, color: Color)
    | Mesh(transform: Matrix, shade: Shade, prims: seq<Primitive>)

  const GridBlue := Rgba(0.0, 0.0, 0.8, 1.0)
  const SurfaceGrey := Rgba(0.7, 0.7, 0.7, 0.5)

  /** The surface is drawn shrunk toward the origin by this factor, so that
      the wireframe stays visible over it. */
  const GridOffset := 0.005
  const SurfaceScale := 1.0 - GridOffset

  /** The colours the indicators of slots 1 to 5 show for a set flag ... */
  const OnColors := [Opaque(0.0, 1.0, 0.0), Opaque(0.0, 1.0, 1.0), Opaque(1.0, 1.0, 1.0),
                     Opaque(0.3, 0.8, 0.0), Opaque(1.0, 0.3, 0.5)]

  /** ... and for a clear one. */
  const OffColors := [Opaque(0.8, 0.0, 0.0), Opaque(0.0, 0.0, 0.0), Opaque(0.0, 0.0, 0.0),
                      Opaque(0.6, 0.6, 0.6), Opaque(0.6, 0.6, 0.6)]

  /** The indicator of slot `slot`, in colour `on` when `value` holds and in
      colour `off` otherwise. */
  function Flag(slot: nat, on: Color, off: Color, value: bool): (r: Draw)
    ensures r.Indicator? && r.slot == slot
    ensures value ==> r.color == on
    ensures !value ==> r.color == off
  {
    Indicator(slot, if value then on else off)
  }

  /** The flag each slot shows, slot 1 first. */
  const SlotFlags := [Animate, ShowGrid, ShowSurface, Color2d, Color3d]

  /** The five indicators, for animate, show_grid, show_surface, color_2d and
      color_3d, in slots 1 to 5. */
  function IndicatorBank(f: Flags): (bank: seq<Draw>)
    ensures |bank| == 5
    ensures forall k :: 0 <= k < 5 ==> bank[k].Indicator? && bank[k].slot == k + 1
    ensures forall k :: 0 <= k < 5 ==>
      bank[k].color == if Get(f, SlotFlags[k]) then OnColors[k] else OffColors[k]
  {
    [ Flag(1, OnColors[0], OffColors[0], f.animate),
      Flag(2, OnColors[1], OffColors[1], f.showGrid),
      Flag(3, OnColors[2], OffColors[2], f.showSurface),
      Flag(4, OnColors[3], OffColors[3], f.color2d),
      Flag(5, OnColors[4], OffColors[4], f.color3d) ]
  }

  /** The flags a viewer reads off five indicators: a flag is set exactly
      when its indicator shows its "on" colour. */
  function ReadBank(bank: seq<Draw>): Flags
    requires |bank| == 5 && forall k :: 0 <= k < 5 ==> bank[k].Indicator?
  {
    Flags(bank[0].color == OnColors[0], bank[1].color == OnColors[1], bank[2].color == OnColors[2],
          bank[3].color == OnColors[3], bank[4].color == OnColors[4])
  }

  /** The indicators show the flags faithfully: reading them back gives the
      flags they were drawn from. */
  lemma BankRoundTrip(f: Flags)
    ensures ReadBank(IndicatorBank(f)) == f
  {
    assert forall k :: 0 <= k < 5 ==> OnColors[k] != OffColors[k];
  }

  /** The colouring of the wireframe: the depth colouring overrides the
      parameter colouring, and without either the pass colour stays. */
  function GridShade(color2d: bool, color3d: bool): (s: Shade)
    ensures s == ByDepth <==> color3d
    ensures s == ByParameter <==> color2d && !color3d
    ensures s.Flat? ==> s.color == GridBlue
  {
    if color3d then ByDepth else if color2d then ByParameter else Flat(GridBlue)
  }
}
