/** Flat addressing of row-major (NHWC) tensors.

    The kernel library routes every element access through three offset
    functions, one per rank.  They are all instances of the same row-major
    (Horner) offset `Offset`, whose inverse is `Unravel`; the lemmas below
    show that each offset stays inside the buffer and that distinct
    coordinates never share an element.  Sizes are unbounded naturals: the
    machine's `size_t` never wraps for coordinates that address a buffer
    which exists in memory.
 */
module Index {

  /** Every extent but the last. */
  function Init(dims: seq<nat>): seq<nat>
    requires |dims| > 0
  {
    dims[..|dims| - 1]
  }

  /** The last (fastest varying) extent. */
  function Last(dims: seq<nat>): nat
    requires |dims| > 0
  {
    dims[|dims| - 1]
  }

  /** `a` copies of `b` added up.  Index arithmetic is stated with it so that
      every fact about offsets stays linear; `MulIsProduct` connects it to `*`. */
  function Mul(a: nat, b: nat): nat
  {
    if a == 0 then 0 else Mul(a - 1, b) + b
  }

  lemma {:induction false} MulIsProduct(a: nat, b: nat)
    ensures Mul(a, b) == a * b
  {
    if a > 0 {
      MulIsProduct(a - 1, b);
    }
  }

  lemma {:induction false} MulZero(a: nat)
    ensures Mul(a, 0) == 0
  {
    if a > 0 {
      MulZero(a - 1);
    }
  }

  /** Multiplying by the same extent preserves order. */
  lemma {:induction false} MulMono(a: nat, b: nat, d: nat)
    requires a <= b
    ensures Mul(a, d) <= Mul(b, d)
    decreases b
  {
    if a < b {
      MulMono(a, b - 1, d);
    }
  }

  /** Number of elements of a tensor with these extents. */
  function Volume(dims: seq<nat>): nat
  {
    if |dims| == 0 then 1 else Mul(Volume(Init(dims)), Last(dims))
  }

  /** A coordinate of the right rank whose every component is below its extent. */
  predicate InBounds(dims: seq<nat>, c: seq<nat>)
  {
    |c| == |dims| && forall i :: 0 <= i < |c| ==> c[i] < dims[i]
  }

  /** Row-major offset of coordinate `c`: the last coordinate varies fastest. */
  function Offset(dims: seq<nat>, c: seq<nat>): nat
    requires |c| == |dims|
  {
    if |dims| == 0 then 0
    else Mul(Offset(Init(dims), Init(c)), Last(dims)) + Last(c)
  }

  /** Quotient and remainder are unique: the arithmetic fact behind injectivity. */
  lemma {:induction false} DivModUnique(q1: nat, r1: nat, q2: nat, r2: nat, d: nat)
    requires r1 < d && r2 < d
    requires Mul(q1, d) + r1 == Mul(q2, d) + r2
    ensures q1 == q2 && r1 == r2
    decreases q1
  {
    if q1 > 0 && q2 > 0 {
      DivModUnique(q1 - 1, r1, q2 - 1, r2, d);
    }
  }

  lemma InitInBounds(dims: seq<nat>, c: seq<nat>)
    requires |dims| > 0 && InBounds(dims, c)
    ensures InBounds(Init(dims), Init(c)) && Last(c) < Last(dims)
  {
  }

  /** Offsets of in-bounds coordinates address the buffer. */
  lemma {:induction false} OffsetBound(dims: seq<nat>, c: seq<nat>)
    requires InBounds(dims, c)
    ensures Offset(dims, c) < Volume(dims)
    decreases |dims|
  {
    if |dims| > 0 {
      InitInBounds(dims, c);
      OffsetBound(Init(dims), Init(c));
      MulMono(Offset(Init(dims), Init(c)) + 1, Volume(Init(dims)), Last(dims));
    }
  }

  /** Distinct in-bounds coordinates have distinct offsets. */
  lemma {:induction false} OffsetInjective(dims: seq<nat>, c1: seq<nat>, c2: seq<nat>)
    requires InBounds(dims, c1) && InBounds(dims, c2)
    requires Offset(dims, c1) == Offset(dims, c2)
    ensures c1 == c2
    decreases |dims|
  {
    if |dims| > 0 {
      InitInBounds(dims, c1);
      InitInBounds(dims, c2);
      DivModUnique(Offset(Init(dims), Init(c1)), Last(c1),
                   Offset(Init(dims), Init(c2)), Last(c2), Last(dims));
      OffsetInjective(Init(dims), Init(c1), Init(c2));
      assert c1 == Init(c1) + [Last(c1)];
      assert c2 == Init(c2) + [Last(c2)];
    }
  }

  /** Division of `o` by a positive extent `d`, by repeated subtraction:
      the quotient addresses the outer block and the remainder the position
      inside it. */
  function DivMod(o: nat, d: nat): (qr: (nat, nat))
    requires d > 0
    ensures Mul(qr.0, d) + qr.1 == o && qr.1 < d
    decreases o
  {
    if o < d then (0, o)
    else
      var qr := DivMod(o - d, d);
      (qr.0 + 1, qr.1)
  }

  /** A position inside v blocks of d lies in one of those blocks. */
  lemma DivBelow(o: nat, v: nat, d: nat)
    requires o < Mul(v, d)
    ensures d > 0 && DivMod(o, d).0 < v
  {
    if d == 0 {
      MulZero(v);
    } else if DivMod(o, d).0 >= v {
      MulMono(v, DivMod(o, d).0, d);
    }
  }

  /** The coordinate of flat position `o`: the inverse of `Offset`. */
  function Unravel(dims: seq<nat>, o: nat): (c: seq<nat>)
    requires o < Volume(dims)
    ensures InBounds(dims, c) && Offset(dims, c) == o
    decreases |dims|
  {
    if |dims| == 0 then []
    else
      var d := Last(dims);
      DivBelow(o, Volume(Init(dims)), d);
      var qr := DivMod(o, d);
      var q := Unravel(Init(dims), qr.0);
      var c := q + [qr.1];
      assert Init(c) == q && Last(c) == qr.1;
      c
  }

  /** Unravelling the offset of an in-bounds coordinate gives the coordinate back. */
  lemma UnravelOffset(dims: seq<nat>, c: seq<nat>)
    requires InBounds(dims, c)
    ensures Offset(dims, c) < Volume(dims)
    ensures Unravel(dims, Offset(dims, c)) == c
  {
    OffsetBound(dims, c);
    OffsetInjective(dims, c, Unravel(dims, Offset(dims, c)));
  }

  /** Offset of (x, y) in a 2-D tensor (source: libjit_getXY). */
  function GetXY(dims: seq<nat>, x: nat, y: nat): (r: nat)
    requires |dims| == 2
    ensures x < dims[0] && y < dims[1] ==> r < Volume(dims)
  {
    if x < dims[0] && y < dims[1] then OffsetBound(dims, [x, y]); Offset(dims, [x, y])
    else Offset(dims, [x, y])
  }

  /** Offset of (x, y, z) in a 3-D tensor (source: libjit_getXYZ). */
  function GetXYZ(dims: seq<nat>, x: nat, y: nat, z: nat): (r: nat)
    requires |dims| == 3
    ensures x < dims[0] && y < dims[1] && z < dims[2] ==> r < Volume(dims)
  {
    if x < dims[0] && y < dims[1] && z < dims[2] then
      OffsetBound(dims, [x, y, z]); Offset(dims, [x, y, z])
    else Offset(dims, [x, y, z])
  }

  /** Offset of (x, y, z, w) in a 4-D (NHWC) tensor (source: libjit_getXYZW). */
  function GetXYZW(dims: seq<nat>, x: nat, y: nat, z: nat, w: nat): (r: nat)
    requires |dims| == 4
    ensures x < dims[0] && y < dims[1] && z < dims[2] && w < dims[3] ==> r < Volume(dims)
  {
    if x < dims[0] && y < dims[1] && z < dims[2] && w < dims[3] then
      OffsetBound(dims, [x, y, z, w]); Offset(dims, [x, y, z, w])
    else Offset(dims, [x, y, z, w])
  }

  /** The 2-D offset is x rows of dims[1] elements plus y. */
  lemma GetXYRow(dims: seq<nat>, x: nat, y: nat)
    requires |dims| == 2
    ensures GetXY(dims, x, y) == Mul(x, dims[1]) + y
  {
    assert Init(dims) == [dims[0]] && Init([x, y]) == [x] && Last([x, y]) == y;
    assert Init([dims[0]]) == [] && Init([x]) == [];
    assert Offset([dims[0]], [x]) == x;
  }

  /** The source's formula for the 2-D offset: x * dims[1] + y. */
  lemma GetXYFormula(dims: seq<nat>, x: nat, y: nat)
    requires |dims| == 2
    ensures GetXY(dims, x, y) == x * dims[1] + y
  {
    GetXYRow(dims, x, y);
    MulIsProduct(x, dims[1]);
  }

  /** The source's formula for the 3-D offset. */
  lemma GetXYZFormula(dims: seq<nat>, x: nat, y: nat, z: nat)
    requires |dims| == 3
    ensures GetXYZ(dims, x, y, z) == x * dims[1] * dims[2] + y * dims[2] + z
  {
    assert Init(dims) == [dims[0], dims[1]] && Init([x, y, z]) == [x, y];
    GetXYFormula(Init(dims), x, y);
    MulIsProduct(x * dims[1] + y, dims[2]);
    Distribute2(x * dims[1], y, dims[2]);
  }

  /** The source's formula for the 4-D offset. */
  lemma GetXYZWFormula(dims: seq<nat>, x: nat, y: nat, z: nat, w: nat)
    requires |dims| == 4
    ensures GetXYZW(dims, x, y, z, w)
         == x * dims[1] * dims[2] * dims[3] + y * dims[2] * dims[3] + z * dims[3] + w
  {
    assert Init(dims) == [dims[0], dims[1], dims[2]] && Init([x, y, z, w]) == [x, y, z];
    GetXYZFormula(Init(dims), x, y, z);
    MulIsProduct(x * dims[1] * dims[2] + y * dims[2] + z, dims[3]);
    Distribute3(x * dims[1] * dims[2], y * dims[2], z, dims[3]);
  }

  lemma Distribute2(a: nat, b: nat, d: nat)
    ensures (a + b) * d == a * d + b * d
  {
  }

  lemma Distribute3(a: nat, b: nat, c: nat, d: nat)
    ensures (a + b + c) * d == a * d + b * d + c * d
  {
  }

  /** Two in-range 4-D coordinates share an offset only if they are equal. */
  lemma GetXYZWInjective(dims: seq<nat>, x1: nat, y1: nat, z1: nat, w1: nat,
                         x2: nat, y2: nat, z2: nat, w2: nat)
    requires |dims| == 4
    requires x1 < dims[0] && y1 < dims[1] && z1 < dims[2] && w1 < dims[3]
    requires x2 < dims[0] && y2 < dims[1] && z2 < dims[2] && w2 < dims[3]
    requires GetXYZW(dims, x1, y1, z1, w1) == GetXYZW(dims, x2, y2, z2, w2)
    ensures x1 == x2 && y1 == y2 && z1 == z2 && w1 == w2
  {
    OffsetInjective(dims, [x1, y1, z1, w1], [x2, y2, z2, w2]);
  }

  /** Two in-range 3-D coordinates share an offset only if they are equal. */
  lemma GetXYZInjective(dims: seq<nat>, x1: nat, y1: nat, z1: nat, x2: nat, y2: nat, z2: nat)
    requires |dims| == 3
    requires x1 < dims[0] && y1 < dims[1] && z1 < dims[2]
    requires x2 < dims[0] && y2 < dims[1] && z2 < dims[2]
    requires GetXYZ(dims, x1, y1, z1) == GetXYZ(dims, x2, y2, z2)
    ensures x1 == x2 && y1 == y2 && z1 == z2
  {
    OffsetInjective(dims, [x1, y1, z1], [x2, y2, z2]);
  }

  /** Two in-range 2-D coordinates share an offset only if they are equal. */
  lemma GetXYInjective(dims: seq<nat>, x1: nat, y1: nat, x2: nat, y2: nat)
    requires |dims| == 2
    requires x1 < dims[0] && y1 < dims[1] && x2 < dims[0] && y2 < dims[1]
    requires GetXY(dims, x1, y1) == GetXY(dims, x2, y2)
    ensures x1 == x2 && y1 == y2
  {
    OffsetInjective(dims, [x1, y1], [x2, y2]);
  }

  /** Unravelling a 4-D offset recovers its coordinate. */
  lemma UnravelXYZW(dims: seq<nat>, x: nat, y: nat, z: nat, w: nat)
    requires |dims| == 4
    requires x < dims[0] && y < dims[1] && z < dims[2] && w < dims[3]
    ensures GetXYZW(dims, x, y, z, w) < Volume(dims)
    ensures Unravel(dims, GetXYZW(dims, x, y, z, w)) == [x, y, z, w]
  {
    UnravelOffset(dims, [x, y, z, w]);
  }

  /** Every 4-D offset is the offset of its unravelled coordinate. */
  lemma XYZWOfUnravel(dims: seq<nat>, o: nat)
    requires |dims| == 4 && o < Volume(dims)
    ensures var c := Unravel(dims, o);
      c[0] < dims[0] && c[1] < dims[1] && c[2] < dims[2] && c[3] < dims[3]
      && GetXYZW(dims, c[0], c[1], c[2], c[3]) == o
  {
    var c := Unravel(dims, o);
    assert c == [c[0], c[1], c[2], c[3]];
  }

  /** Unravelling a 3-D offset recovers its coordinate. */
  lemma UnravelXYZ(dims: seq<nat>, x: nat, y: nat, z: nat)
    requires |dims| == 3
    requires x < dims[0] && y < dims[1] && z < dims[2]
    ensures GetXYZ(dims, x, y, z) < Volume(dims)
    ensures Unravel(dims, GetXYZ(dims, x, y, z)) == [x, y, z]
  {
    UnravelOffset(dims, [x, y, z]);
  }

  /** A 2-D tensor holds dims[0] * dims[1] elements. */
  lemma Volume2(dims: seq<nat>)
    requires |dims| == 2
    ensures Volume(dims) == Mul(dims[0], dims[1]) == dims[0] * dims[1]
  {
    assert Init(dims) == [dims[0]] && Init(Init(dims)) == [];
    assert Volume(Init(dims)) == Mul(1, dims[0]);
    MulIsProduct(dims[0], dims[1]);
  }
}
