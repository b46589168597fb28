/** The composite 4D rotation: six elementary plane rotations, composed in a
    fixed order from the current angles, and the per-frame angle advance. */
module Rotation {
  import opened Matrix4

  /** The number of coordinate planes, one per pair of the four axes. */
  const Planes := 6

  /** The axis pair of each plane, in the order the rotations are composed. */
  const Pairs: seq<(nat, nat)> := [(0, 1), (0, 2), (0, 3), (1, 2), (1, 3), (2, 3)]

  /** The angular speed of each plane, in radians per second. */
  const Speed: seq<real> := [1.0 / 13.0, 1.0 / 11.0, 1.0 / 7.0, 1.0 / 5.0, 1.0 / 3.0, 1.0 / 2.0]

  /** The rotation in the plane of axes `p` and `q`, given the cosine `c` and
      sine `s` of its angle, built as the program builds it: the identity
      with entries (p, p), (q, q), (p, q) and (q, p) overwritten. */
  function PlaneRotation(p: nat, q: nat, c: real, s: real): Matrix
    requires p < 4 && q < 4
  {
    Set(Set(Set(Set(Identity(), p, p, c), q, q, c), p, q, s), q, p, -s)
  }

  /** For two distinct axes, the plane rotation differs from the identity in
      exactly the four entries of its plane. */
  lemma PlaneRotationEntries(p: nat, q: nat, c: real, s: real)
    requires p < 4 && q < 4 && p != q
    ensures forall r, col :: 0 <= r < 4 && 0 <= col < 4 ==>
      PlaneRotation(p, q, c, s)[r][col] ==
        if r == col then (if r == p || r == q then c else 1.0)
        else if r == p && col == q then s
        else if r == q && col == p then -s
        else 0.0
  {
  }

  /** Every pair of the table names two distinct axes, the first below the second. */
  lemma PairsDistinct()
    ensures |Pairs| == Planes
    ensures forall k :: 0 <= k < Planes ==> Pairs[k].0 < Pairs[k].1 < 4
    ensures forall k1, k2 :: 0 <= k1 < k2 < Planes ==> Pairs[k1] != Pairs[k2]
  {
  }

  /** The rotation by angle zero (cosine 1, sine 0) is the identity. */
  lemma PlaneRotationAtRest(p: nat, q: nat)
    requires p < 4 && q < 4 && p != q
    ensures PlaneRotation(p, q, 1.0, 0.0) == Identity()
  {
    PlaneRotationEntries(p, q, 1.0, 0.0);
    Ext(PlaneRotation(p, q, 1.0, 0.0), Identity());
  }

  /** The rows of a plane rotation: unit rows outside the plane, (c, s) and
      (-s, c) in its two columns on the plane's rows. */
  lemma PlaneRotationRows(p: nat, q: nat, c: real, s: real)
    requires p < 4 && q < 4 && p != q
    ensures var m := PlaneRotation(p, q, c, s);
      forall r, k :: 0 <= r < 4 && 0 <= k < 4 && r != p && r != q ==> m[r][k] == (if r == k then 1.0 else 0.0)
    ensures var m := PlaneRotation(p, q, c, s);
      forall k :: 0 <= k < 4 ==> m[p][k] == (if k == p then c else if k == q then s else 0.0)
    ensures var m := PlaneRotation(p, q, c, s);
      forall k :: 0 <= k < 4 ==> m[q][k] == (if k == p then -s else if k == q then c else 0.0)
  {
  }

  /** `c` and `s` can be the cosine and sine of one angle. */
  predicate OnUnitCircle(c: real, s: real) {
    c * c + s * s == 1.0
  }

  /** With cos^2 + sin^2 = 1 the plane rotation is orthogonal. */
  lemma PlaneRotationOrthogonal(p: nat, q: nat, c: real, s: real)
    requires p < 4 && q < 4 && p != q
    requires OnUnitCircle(c, s)
    ensures Orthogonal(PlaneRotation(p, q, c, s))
  {
    var m := PlaneRotation(p, q, c, s);
    forall r, col | 0 <= r < 4 && 0 <= col < 4
      ensures Mul(m, Transpose(m))[r][col] == Identity()[r][col]
    {
      PlaneRotationRows(p, q, c, s);
      MulTransposeEntry(m, r, col);
      RotationRowsDot(m, p, q, c, s, r, col);
    }
    Ext(Mul(m, Transpose(m)), Identity());
  }

  /** Rows shaped like those of a plane rotation on the unit circle are orthonormal. */
  lemma RotationRowsDot(m: Matrix, p: nat, q: nat, c: real, s: real, r: nat, col: nat)
    requires p < 4 && q < 4 && p != q && r < 4 && col < 4
    requires c * c + s * s == 1.0
    requires forall r, k :: 0 <= r < 4 && 0 <= k < 4 && r != p && r != q ==> m[r][k] == (if r == k then 1.0 else 0.0)
    requires forall k :: 0 <= k < 4 ==> m[p][k] == (if k == p then c else if k == q then s else 0.0)
    requires forall k :: 0 <= k < 4 ==> m[q][k] == (if k == p then -s else if k == q then c else 0.0)
    ensures m[r][0] * m[col][0] + m[r][1] * m[col][1] + m[r][2] * m[col][2] + m[r][3] * m[col][3]
      == if r == col then 1.0 else 0.0
  {
  }

  /** Rotation number `k` of a frame, from the cosine and sine of its angle. */
  function Elementary(k: nat, angle: real, cos: real -> real, sin: real -> real): Matrix
    requires k < Planes
  {
    PlaneRotation(Pairs[k].0, Pairs[k].1, cos(angle), sin(angle))
  }

  /** The product of the first `k` elementary rotations, starting from the
      identity and multiplying each new rotation in on the right. */
  function Composite(angles: seq<real>, cos: real -> real, sin: real -> real, k: nat): Matrix
    requires |angles| == Planes && k <= Planes
  {
    if k == 0 then Identity()
    else Mul(Composite(angles, cos, sin, k - 1), Elementary(k - 1, angles[k - 1], cos, sin))
  }

  /** Starting from the identity, the first product is the first rotation itself. */
  lemma CompositeStart(angles: seq<real>, cos: real -> real, sin: real -> real)
    requires |angles| == Planes
    ensures Composite(angles, cos, sin, 1) == Elementary(0, angles[0], cos, sin)
  {
    MulIdentityLeft(Elementary(0, angles[0], cos, sin));
  }

  /** With every angle at rest (cosine 1, sine 0) the composite is the identity. */
  lemma {:induction false} CompositeAtRest(angles: seq<real>, cos: real -> real, sin: real -> real, k: nat)
    requires |angles| == Planes && k <= Planes
    requires forall n :: 0 <= n < Planes ==> cos(angles[n]) == 1.0 && sin(angles[n]) == 0.0
    ensures Composite(angles, cos, sin, k) == Identity()
  {
    if k > 0 {
      CompositeAtRest(angles, cos, sin, k - 1);
      PairsDistinct();
      PlaneRotationAtRest(Pairs[k - 1].0, Pairs[k - 1].1);
      MulIdentityLeft(Identity());
    }
  }

  /** When every (cosine, sine) pair lies on the unit circle the composite is
      orthogonal. */
  lemma {:induction false} CompositeOrthogonal(angles: seq<real>, cos: real -> real, sin: real -> real, k: nat)
    requires |angles| == Planes && k <= Planes
    requires forall n :: 0 <= n < Planes ==> OnUnitCircle(cos(angles[n]), sin(angles[n]))
    ensures Orthogonal(Composite(angles, cos, sin, k))
  {
    if k == 0 {
      IdentityOrthogonal();
    } else {
      CompositeOrthogonal(angles, cos, sin, k - 1);
      PairsDistinct();
      var a := angles[k - 1];
      assert OnUnitCircle(cos(a), sin(a));
      var prefix, rot := Composite(angles, cos, sin, k - 1), Elementary(k - 1, a, cos, sin);
      PlaneRotationOrthogonal(Pairs[k - 1].0, Pairs[k - 1].1, cos(a), sin(a));
      assert Orthogonal(rot);
      OrthogonalMul(prefix, rot);
      assert Composite(angles, cos, sin, k) == Mul(prefix, rot);
    }
  }

  /** The angles after one frame of `dt` seconds: each advanced by its speed
      times `dt` when animation is on, all unchanged otherwise. */
  function Advance(angles: seq<real>, dt: real, animate: bool): (r: seq<real>)
    requires |angles| == Planes
    ensures |r| == Planes
  {
    if animate then seq(Planes, k requires 0 <= k < Planes => angles[k] + dt * Speed[k]) else angles
  }

  /** Angle `k` after the frame. */
  lemma AdvanceAt(angles: seq<real>, dt: real, animate: bool, k: nat)
    requires |angles| == Planes && k < Planes
    ensures Advance(angles, dt, animate)[k] == if animate then angles[k] + dt * Speed[k] else angles[k]
  {
  }

  /** With animation off the angles stay frozen, whatever the elapsed time. */
  lemma AdvanceFrozen(angles: seq<real>, dt: real)
    requires |angles| == Planes
    ensures Advance(angles, dt, false) == angles
  {
  }

  /** A frame with no elapsed time leaves the angles unchanged. */
  lemma AdvanceNoTime(angles: seq<real>, animate: bool)
    requires |angles| == Planes
    ensures Advance(angles, 0.0, animate) == angles
  {
  }

  /** Advancing by `t1` then by `t2` is advancing by `t1 + t2`. */
  lemma AdvanceAdditive(angles: seq<real>, t1: real, t2: real)
    requires |angles| == Planes
    ensures Advance(Advance(angles, t1, true), t2, true) == Advance(angles, t1 + t2, true)
  {
  }
}
