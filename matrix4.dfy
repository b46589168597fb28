/** 4 x 4 real matrices: the value semantics of the program's 4 x 4 matrix
    type (`setIdentity`, element assignment, `*=` by a matrix and by a scalar). */
module Matrix4 {

  predicate IsMatrix(m: seq<seq<real>>) {
    |m| == 4 && forall r :: 0 <= r < 4 ==> |m[r]| == 4
  }

  type Matrix = m: seq<seq<real>> | IsMatrix(m)
    witness [[1.0, 0.0, 0.0, 0.0], [0.0, 1.0, 0.0, 0.0], [0.0, 0.0, 1.0, 0.0], [0.0, 0.0, 0.0, 1.0]]

  function Identity(): Matrix {
    seq(4, r => seq(4, c => if r == c then 1.0 else 0.0))
  }

  /** The all-zero matrix: the value of a statically allocated matrix never assigned. */
  function Zero(): Matrix {
    seq(4, r => seq(4, c => 0.0))
  }

  /** `m` with entry (r, c) replaced by `x`. */
  function Set(m: Matrix, r: nat, c: nat, x: real): Matrix
    requires r < 4 && c < 4
  {
    m[r := m[r][c := x]]
  }

  function Mul(a: Matrix, b: Matrix): Matrix {
    seq(4, r requires 0 <= r < 4 => seq(4, c requires 0 <= c < 4 =>
      a[r][0] * b[0][c] + a[r][1] * b[1][c] + a[r][2] * b[2][c] + a[r][3] * b[3][c]))
  }

  function Scale(m: Matrix, k: real): Matrix {
    seq(4, r requires 0 <= r < 4 => seq(4, c requires 0 <= c < 4 => m[r][c] * k))
  }

  function Transpose(m: Matrix): Matrix {
    seq(4, r requires 0 <= r < 4 => seq(4, c requires 0 <= c < 4 => m[c][r]))
  }

  /** The rows of `m` are orthonormal: `m` times its transpose is the identity. */
  predicate Orthogonal(m: Matrix) {
    Mul(m, Transpose(m)) == Identity()
  }

  /** Two matrices with the same entries are the same matrix. */
  lemma Ext(a: Matrix, b: Matrix)
    requires forall r, c :: 0 <= r < 4 && 0 <= c < 4 ==> a[r][c] == b[r][c]
    ensures a == b
  {
    forall r | 0 <= r < 4
      ensures a[r] == b[r]
    {
    }
  }

  lemma MulIdentityLeft(m: Matrix)
    ensures Mul(Identity(), m) == m
  {
    Ext(Mul(Identity(), m), m);
  }

  lemma MulIdentityRight(m: Matrix)
    ensures Mul(m, Identity()) == m
  {
    Ext(Mul(m, Identity()), m);
  }

  /** Entry (r, col) of m times its transpose is the dot product of rows r and col. */
  lemma MulTransposeEntry(m: Matrix, r: nat, col: nat)
    requires r < 4 && col < 4
    ensures Mul(m, Transpose(m))[r][col]
      == m[r][0] * m[col][0] + m[r][1] * m[col][1] + m[r][2] * m[col][2] + m[r][3] * m[col][3]
  {
  }

  lemma IdentityOrthogonal()
    ensures Orthogonal(Identity())
  {
    assert Transpose(Identity()) == Identity() by {
      Ext(Transpose(Identity()), Identity());
    }
    MulIdentityLeft(Identity());
  }

  lemma MulAssoc(a: Matrix, b: Matrix, c: Matrix)
    ensures Mul(Mul(a, b), c) == Mul(a, Mul(b, c))
  {
    forall r, col | 0 <= r < 4 && 0 <= col < 4
      ensures Mul(Mul(a, b), c)[r][col] == Mul(a, Mul(b, c))[r][col]
    {
      MulAssocEntry(a, b, c, r, col);
    }
    Ext(Mul(Mul(a, b), c), Mul(a, Mul(b, c)));
  }

  lemma MulAssocEntry(a: Matrix, b: Matrix, c: Matrix, r: nat, col: nat)
    requires r < 4 && col < 4
    ensures Mul(Mul(a, b), c)[r][col] == Mul(a, Mul(b, c))[r][col]
  {
    RowColAssoc(a[r][0], a[r][1], a[r][2], a[r][3],
      b[0][0], b[0][1], b[0][2], b[0][3], b[1][0], b[1][1], b[1][2], b[1][3],
      b[2][0], b[2][1], b[2][2], b[2][3], b[3][0], b[3][1], b[3][2], b[3][3],
      c[0][col], c[1][col], c[2][col], c[3][col]);
  }

  /** Row vector x times matrix b times column vector y, associated either way. */
  lemma RowColAssoc(x0: real, x1: real, x2: real, x3: real,
      b00: real, b01: real, b02: real, b03: real, b10: real, b11: real, b12: real, b13: real,
      b20: real, b21: real, b22: real, b23: real, b30: real, b31: real, b32: real, b33: real,
      y0: real, y1: real, y2: real, y3: real)
    ensures (x0 * b00 + x1 * b10 + x2 * b20 + x3 * b30) * y0
      + (x0 * b01 + x1 * b11 + x2 * b21 + x3 * b31) * y1
      + (x0 * b02 + x1 * b12 + x2 * b22 + x3 * b32) * y2
      + (x0 * b03 + x1 * b13 + x2 * b23 + x3 * b33) * y3
      == x0 * (b00 * y0 + b01 * y1 + b02 * y2 + b03 * y3)
      + x1 * (b10 * y0 + b11 * y1 + b12 * y2 + b13 * y3)
      + x2 * (b20 * y0 + b21 * y1 + b22 * y2 + b23 * y3)
      + x3 * (b30 * y0 + b31 * y1 + b32 * y2 + b33 * y3)
  {
    DistRight(x0 * b00, x1 * b10, x2 * b20, x3 * b30, y0);
    DistRight(x0 * b01, x1 * b11, x2 * b21, x3 * b31, y1);
    DistRight(x0 * b02, x1 * b12, x2 * b22, x3 * b32, y2);
    DistRight(x0 * b03, x1 * b13, x2 * b23, x3 * b33, y3);
    DistLeft(x0, b00 * y0, b01 * y1, b02 * y2, b03 * y3);
    DistLeft(x1, b10 * y0, b11 * y1, b12 * y2, b13 * y3);
    DistLeft(x2, b20 * y0, b21 * y1, b22 * y2, b23 * y3);
    DistLeft(x3, b30 * y0, b31 * y1, b32 * y2, b33 * y3);
    MulAssocReal(x0, b00, y0);
    MulAssocReal(x0, b01, y1);
    MulAssocReal(x0, b02, y2);
    MulAssocReal(x0, b03, y3);
    MulAssocReal(x1, b10, y0);
    MulAssocReal(x1, b11, y1);
    MulAssocReal(x1, b12, y2);
    MulAssocReal(x1, b13, y3);
    MulAssocReal(x2, b20, y0);
    MulAssocReal(x2, b21, y1);
    MulAssocReal(x2, b22, y2);
    MulAssocReal(x2, b23, y3);
    MulAssocReal(x3, b30, y0);
    MulAssocReal(x3, b31, y1);
    MulAssocReal(x3, b32, y2);
    MulAssocReal(x3, b33, y3);
  }

  lemma DistRight(x0: real, x1: real, x2: real, x3: real, y: real)
    ensures (x0 + x1 + x2 + x3) * y == x0 * y + x1 * y + x2 * y + x3 * y
  {
  }

  lemma DistLeft(y: real, x0: real, x1: real, x2: real, x3: real)
    ensures y * (x0 + x1 + x2 + x3) == y * x0 + y * x1 + y * x2 + y * x3
  {
  }

  lemma MulAssocReal(x: real, y: real, z: real)
    ensures (x * y) * z == x * (y * z)
  {
  }

  lemma TransposeMul(a: Matrix, b: Matrix)
    ensures Transpose(Mul(a, b)) == Mul(Transpose(b), Transpose(a))
  {
    Ext(Transpose(Mul(a, b)), Mul(Transpose(b), Transpose(a)));
  }

  /** A product of orthogonal matrices is orthogonal. */
  lemma OrthogonalMul(a: Matrix, b: Matrix)
    requires Orthogonal(a) && Orthogonal(b)
    ensures Orthogonal(Mul(a, b))
  {
    var ab := Mul(a, b);
    TransposeMul(a, b);
    MulAssoc(ab, Transpose(b), Transpose(a));
    MulAssoc(a, b, Transpose(b));
    MulIdentityRight(a);
    calc {
      Mul(ab, Transpose(ab));
    ==
      Mul(ab, Mul(Transpose(b), Transpose(a)));
    ==  { MulAssoc(ab, Transpose(b), Transpose(a)); }
      Mul(Mul(ab, Transpose(b)), Transpose(a));
    ==  { MulAssoc(a, b, Transpose(b)); }
      Mul(Mul(a, Mul(b, Transpose(b))), Transpose(a));
    ==
      Mul(Mul(a, Identity()), Transpose(a));
    ==
      Mul(a, Transpose(a));
    ==
      Identity();
    }
  }
}
