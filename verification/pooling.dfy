/** Max and average pooling and their gradients (NHWC).

    A k-by-k window slides over the H and W axes of the input.  Output cell
    (n, ax, ay, z) looks at the window whose top-left corner is
    (ax * stride - pad, ay * stride - pad); a tap that falls outside the
    input is skipped.  The kernels visit the taps with fx outer and fy inner,
    so tap (fx, fy) is number fx * k + fy of the window's scan.
 */
module Pooling {
  import opened Index
  import opened Sums
  import opened Optional

  /** Top-left corner of the window for output position `a`: the kernels
      start at -pad and step by `stride` once per output position. */
  function Origin(a: nat, stride: nat, pad: nat): int
  {
    Mul(a, stride) - pad
  }

  /** The tap (ox, oy) lies inside the input's H x W plane. */
  predicate TapIn(dims: seq<nat>, ox: int, oy: int)
    requires |dims| == 4
  {
    0 <= ox < dims[1] && 0 <= oy < dims[2]
  }

  /** What a tap reads: the input element, or nothing for a skipped tap. */
  function TapAt(inW: seq<real>, inWdims: seq<nat>, n: nat, z: nat, x: int, y: int,
                 fx: nat, fy: nat): (v: Option<real>)
    requires |inWdims| == 4 && |inW| == Volume(inWdims)
    requires n < inWdims[0] && z < inWdims[3]
    ensures v.Some? <==> TapIn(inWdims, x + fx, y + fy)
  {
    if TapIn(inWdims, x + fx, y + fy) then
      Some(inW[GetXYZW(inWdims, n, (x + fx) as nat, (y + fy) as nat, z)])
    else None
  }

  /** Scan position of tap (fx, fy) in a window of width k: fx * k + fy,
      counted up one row of k taps at a time. */
  function Pos(k: nat, fx: nat, fy: nat): nat
    decreases fx
  {
    if fx == 0 then fy else Pos(k, fx - 1, fy) + k
  }

  /** Number of taps of a k-by-k window. */
  function Area(k: nat): (a: nat)
    ensures a == k * k
    ensures k > 0 ==> a >= k
  {
    PosIsProduct(k, k, 0);
    if k > 0 then PosRows(k, 0, k); Pos(k, k, 0) else Pos(k, k, 0)
  }

  lemma {:induction false} PosIsProduct(k: nat, fx: nat, fy: nat)
    ensures Pos(k, fx, fy) == fx * k + fy
    decreases fx
  {
    if fx > 0 {
      PosIsProduct(k, fx - 1, fy);
    }
  }

  lemma {:induction false} PosShift(k: nat, fx: nat, fy: nat)
    ensures Pos(k, fx, fy) == Pos(k, fx, 0) + fy
    decreases fx
  {
    if fx > 0 {
      PosShift(k, fx - 1, fy);
    }
  }

  lemma {:induction false} PosRows(k: nat, a: nat, b: nat)
    requires a < b
    ensures Pos(k, a, 0) + k <= Pos(k, b, 0)
    decreases b
  {
    if a < b - 1 {
      PosRows(k, a, b - 1);
    }
  }

  /** Tap (fx, fy) comes after tap (bx, bw) in the kernel's loop order:
      fx is the outer loop, fy the inner one. */
  predicate Later(fx: int, fy: int, bx: int, bw: int)
  {
    fx > bx || (fx == bx && fy > bw)
  }

  /** The loop order is the order of scan positions. */
  lemma LaterInScan(k: nat, fx: nat, fy: nat, bx: nat, bw: nat)
    requires fy < k && bw < k
    ensures Pos(k, fx, fy) > Pos(k, bx, bw) <==> Later(fx, fy, bx, bw)
  {
    PosShift(k, fx, fy);
    PosShift(k, bx, bw);
    if fx > bx {
      PosRows(k, bx, fx);
    } else if fx < bx {
      PosRows(k, fx, bx);
    }
  }

  /** The tap visited at scan position `t`. */
  function TapOf(k: nat, t: nat): (c: (nat, nat))
    requires k > 0
    ensures c.1 < k && Pos(k, c.0, c.1) == t
    decreases t
  {
    if t < k then (0, t)
    else
      var c := TapOf(k, t - k);
      (c.0 + 1, c.1)
  }

  /** Every scan position of a k-by-k window is a tap of the window. */
  lemma TapOfPosition(k: nat, t: nat)
    requires k > 0 && t < Area(k)
    ensures TapOf(k, t).0 < k
  {
    var c := TapOf(k, t);
    PosShift(k, c.0, c.1);
    if c.0 > k {
      PosRows(k, k, c.0);
    }
  }

  /** Every tap is visited, at position Pos(k, fx, fy). */
  lemma PositionOfTap(k: nat, fx: nat, fy: nat)
    requires fx < k && fy < k
    ensures Pos(k, fx, fy) < Area(k) && TapOf(k, Pos(k, fx, fy)) == (fx, fy)
  {
    PosShift(k, fx, fy);
    PosRows(k, fx, k);
    var c := TapOf(k, Pos(k, fx, fy));
    LaterInScan(k, fx, fy, c.0, c.1);
    LaterInScan(k, c.0, c.1, fx, fy);
  }

  /** The window's taps in scan order. */
  function Window(inW: seq<real>, inWdims: seq<nat>, n: nat, z: nat, x: int, y: int, k: nat)
    : (w: seq<Option<real>>)
    requires |inWdims| == 4 && |inW| == Volume(inWdims)
    requires n < inWdims[0] && z < inWdims[3]
    ensures |w| == Area(k)
  {
    seq(Area(k), t requires 0 <= t < Area(k) =>
      var c := TapOf(k, t);
      TapAt(inW, inWdims, n, z, x, y, c.0, c.1))
  }

  /** The scan reads tap (fx, fy) at position Pos(k, fx, fy). */
  lemma WindowTap(inW: seq<real>, inWdims: seq<nat>, n: nat, z: nat, x: int, y: int, k: nat,
                  fx: nat, fy: nat)
    requires |inWdims| == 4 && |inW| == Volume(inWdims)
    requires n < inWdims[0] && z < inWdims[3]
    requires fx < k && fy < k
    ensures Pos(k, fx, fy) < Area(k)
    ensures Window(inW, inWdims, n, z, x, y, k)[Pos(k, fx, fy)] == TapAt(inW, inWdims, n, z, x, y, fx, fy)
  {
    PositionOfTap(k, fx, fy);
  }

  // ---------------------------------------------------------------------------
  // Max pooling

  /** State of the running maximum after a prefix of the scan. */
  datatype MaxScan = NoTap | Best(idx: nat, val: real)

  /** The kernel's scan: the first valid tap is taken, and a later tap
      replaces the maximum when it is `>=` it, so among equal maxima the
      last one in scan order is kept. */
  function ScanMax(w: seq<Option<real>>): (r: MaxScan)
    ensures r.NoTap? <==> forall i :: 0 <= i < |w| ==> w[i].None?
    ensures r.Best? ==> r.idx < |w| && w[r.idx] == Some(r.val)
    ensures r.Best? ==> forall i :: 0 <= i < |w| && w[i].Some? ==> w[i].value <= r.val
    ensures r.Best? ==> forall i :: r.idx < i < |w| && w[i].Some? ==> w[i].value < r.val
    decreases |w|
  {
    if |w| == 0 then NoTap
    else
      var prev := ScanMax(w[..|w| - 1]);
      var last := w[|w| - 1];
      assert forall i :: 0 <= i < |w| - 1 ==> w[..|w| - 1][i] == w[i];
      if last.Some? && (prev.NoTap? || last.value >= prev.val) then Best(|w| - 1, last.value)
      else prev
  }

  /** The value stored for one window: its maximum, or 0 when every tap was skipped. */
  function WindowMax(w: seq<Option<real>>): real
  {
    match ScanMax(w)
    case NoTap => 0.0
    case Best(_, v) => v
  }

  /** Extents libjit_pool_max_f and libjit_pool_avg_f need: every batch
      they visit exists in the input and every channel of the input exists
      in the output. */
  predicate PoolShapes(inW: seq<real>, outW: seq<real>, inWdims: seq<nat>, outWdims: seq<nat>)
  {
    && |inWdims| == 4 && |outWdims| == 4
    && |inW| == Volume(inWdims) && |outW| == Volume(outWdims)
    && outWdims[0] <= inWdims[0] && inWdims[3] <= outWdims[3]
  }

  /** libjit_pool_max_f: every output cell of a channel the input has holds
      its window's maximum; other cells keep their value. */
  function PoolMax(inW: seq<real>, outW: seq<real>, inWdims: seq<nat>, outWdims: seq<nat>,
                   k: nat, stride: nat, pad: nat): (r: seq<real>)
    requires PoolShapes(inW, outW, inWdims, outWdims)
    ensures |r| == |outW|
  {
    seq(|outW|, o requires 0 <= o < |outW| =>
      var c := Unravel(outWdims, o);
      if c[3] < inWdims[3] then
        WindowMax(Window(inW, inWdims, c[0], c[3], Origin(c[1], stride, pad), Origin(c[2], stride, pad), k))
      else outW[o])
  }

  lemma PoolMaxCell(inW: seq<real>, outW: seq<real>, inWdims: seq<nat>, outWdims: seq<nat>,
                    k: nat, stride: nat, pad: nat, n: nat, ax: nat, ay: nat, z: nat)
    requires PoolShapes(inW, outW, inWdims, outWdims)
    requires n < outWdims[0] && ax < outWdims[1] && ay < outWdims[2] && z < outWdims[3]
    ensures GetXYZW(outWdims, n, ax, ay, z) < |outW|
    ensures PoolMax(inW, outW, inWdims, outWdims, k, stride, pad)[GetXYZW(outWdims, n, ax, ay, z)]
         == if z < inWdims[3]
            then WindowMax(Window(inW, inWdims, n, z, Origin(ax, stride, pad), Origin(ay, stride, pad), k))
            else outW[GetXYZW(outWdims, n, ax, ay, z)]
  {
    UnravelXYZW(outWdims, n, ax, ay, z);
  }

  /** No in-bounds tap of a window exceeds its maximum. */
  lemma WindowMaxBound(inW: seq<real>, inWdims: seq<nat>, n: nat, z: nat, x: int, y: int, k: nat,
                       fx: nat, fy: nat)
    requires |inWdims| == 4 && |inW| == Volume(inWdims)
    requires n < inWdims[0] && z < inWdims[3]
    requires fx < k && fy < k && TapIn(inWdims, x + fx, y + fy)
    ensures TapAt(inW, inWdims, n, z, x, y, fx, fy).value <= WindowMax(Window(inW, inWdims, n, z, x, y, k))
  {
    WindowTap(inW, inWdims, n, z, x, y, k, fx, fy);
  }

  /** A window with an in-bounds tap (fx, fy) has an in-bounds tap
      (bx, bw) holding its maximum. */
  lemma WindowMaxAttained(inW: seq<real>, inWdims: seq<nat>, n: nat, z: nat, x: int, y: int, k: nat,
                          fx: nat, fy: nat) returns (bx: nat, bw: nat)
    requires |inWdims| == 4 && |inW| == Volume(inWdims)
    requires n < inWdims[0] && z < inWdims[3]
    requires fx < k && fy < k && TapIn(inWdims, x + fx, y + fy)
    ensures bx < k && bw < k
    ensures TapAt(inW, inWdims, n, z, x, y, bx, bw) == Some(WindowMax(Window(inW, inWdims, n, z, x, y, k)))
  {
    var w := Window(inW, inWdims, n, z, x, y, k);
    WindowTap(inW, inWdims, n, z, x, y, k, fx, fy);
    var i := ScanMax(w).idx;
    TapOfPosition(k, i);
    var c := TapOf(k, i);
    bx, bw := c.0, c.1;
  }

  /** A window whose every tap is out of bounds stores 0. */
  lemma WindowMaxEmpty(inW: seq<real>, inWdims: seq<nat>, n: nat, z: nat, x: int, y: int, k: nat)
    requires |inWdims| == 4 && |inW| == Volume(inWdims)
    requires n < inWdims[0] && z < inWdims[3]
    requires forall fx: nat, fy: nat :: fx < k && fy < k ==> TapAt(inW, inWdims, n, z, x, y, fx, fy).None?
    ensures WindowMax(Window(inW, inWdims, n, z, x, y, k)) == 0.0
  {
    var w := Window(inW, inWdims, n, z, x, y, k);
    forall t | 0 <= t < |w|
      ensures w[t].None?
    {
      TapOfPosition(k, t);
    }
  }

  // ---------------------------------------------------------------------------
  // Max pooling with argmax recording

  /** Every window along one axis holds a tap inside an input extent. */
  predicate Covered(inExt: nat, outExt: nat, k: nat, stride: nat, pad: nat)
  {
    outExt == 0 || (0 < inExt && pad < k && Mul(outExt - 1, stride) < pad + inExt)
  }

  /** On a covered axis, window `a` has an in-bounds tap `f`. */
  lemma CoveredTap(inExt: nat, outExt: nat, k: nat, stride: nat, pad: nat, a: nat)
    returns (f: nat)
    requires Covered(inExt, outExt, k, stride, pad) && a < outExt
    ensures f < k && 0 <= Origin(a, stride, pad) + f < inExt
  {
    MulMono(a, outExt - 1, stride);
    if Mul(a, stride) >= pad {
      f := 0;
    } else {
      f := pad - Mul(a, stride);
    }
  }

  /** Conversely, if every window along an axis holds an in-bounds tap, the
      axis is covered. */
  lemma CoveredFromTaps(inExt: nat, outExt: nat, k: nat, stride: nat, pad: nat,
                        f0: nat, fl: nat)
    requires outExt > 0
    requires f0 < k && 0 <= Origin(0, stride, pad) + f0 < inExt
    requires fl < k && 0 <= Origin(outExt - 1, stride, pad) + fl < inExt
    ensures Covered(inExt, outExt, k, stride, pad)
  {
  }

  /** The coordinates recorded for a window whose scan found a tap. */
  function ArgMax(inW: seq<real>, inWdims: seq<nat>, n: nat, z: nat, x: int, y: int, k: nat)
    : (p: (nat, nat))
    requires |inWdims| == 4 && |inW| == Volume(inWdims)
    requires n < inWdims[0] && z < inWdims[3]
    requires ScanMax(Window(inW, inWdims, n, z, x, y, k)).Best?
    ensures p.0 < inWdims[1] && p.1 < inWdims[2]
  {
    var i := ScanMax(Window(inW, inWdims, n, z, x, y, k)).idx;
    var c := TapOf(k, i);
    ((x + c.0) as nat, (y + c.1) as nat)
  }

  /** Extents libjit_pool_max_xy_f needs, including one in-bounds tap per window. */
  predicate PoolXYShapes(inW: seq<real>, outW: seq<real>, inXY: seq<nat>,
                         inWdims: seq<nat>, outWdims: seq<nat>, k: nat, stride: nat, pad: nat)
  {
    && |inWdims| == 4 && |outWdims| == 4
    && |inW| == Volume(inWdims) && |outW| == Volume(outWdims) && |inXY| == 2 * Volume(outWdims)
    && outWdims[0] <= inWdims[0] && outWdims[3] <= inWdims[3]
    && Covered(inWdims[1], outWdims[1], k, stride, pad)
    && Covered(inWdims[2], outWdims[2], k, stride, pad)
  }

  /** On covered axes, every window's scan finds a tap. */
  lemma CoveredWindowHasTap(inW: seq<real>, inWdims: seq<nat>, outWdims: seq<nat>,
                            k: nat, stride: nat, pad: nat, n: nat, ax: nat, ay: nat, z: nat)
    requires |inWdims| == 4 && |outWdims| == 4 && |inW| == Volume(inWdims)
    requires n < inWdims[0] && z < inWdims[3] && ax < outWdims[1] && ay < outWdims[2]
    requires Covered(inWdims[1], outWdims[1], k, stride, pad)
    requires Covered(inWdims[2], outWdims[2], k, stride, pad)
    ensures ScanMax(Window(inW, inWdims, n, z, Origin(ax, stride, pad), Origin(ay, stride, pad), k)).Best?
  {
    var fx := CoveredTap(inWdims[1], outWdims[1], k, stride, pad, ax);
    var fy := CoveredTap(inWdims[2], outWdims[2], k, stride, pad, ay);
    WindowTap(inW, inWdims, n, z, Origin(ax, stride, pad), Origin(ay, stride, pad), k, fx, fy);
  }

  /** The two buffers libjit_pool_max_xy_f writes. */
  datatype PoolXY = PoolXY(outW: seq<real>, inXY: seq<nat>)

  /** The argmax coordinate recorded for output cell `o` (x when `second` is false). */
  function RecordedArg(inW: seq<real>, inWdims: seq<nat>, outWdims: seq<nat>,
                       k: nat, stride: nat, pad: nat, o: nat, second: bool): nat
    requires |inWdims| == 4 && |outWdims| == 4 && |inW| == Volume(inWdims)
    requires outWdims[0] <= inWdims[0] && outWdims[3] <= inWdims[3]
    requires Covered(inWdims[1], outWdims[1], k, stride, pad)
    requires Covered(inWdims[2], outWdims[2], k, stride, pad)
    requires o < Volume(outWdims)
  {
    var c := Unravel(outWdims, o);
    CoveredWindowHasTap(inW, inWdims, outWdims, k, stride, pad, c[0], c[1], c[2], c[3]);
    var p := ArgMax(inW, inWdims, c[0], c[3], Origin(c[1], stride, pad), Origin(c[2], stride, pad), k);
    if second then p.1 else p.0
  }

  /** libjit_pool_max_xy_f: the output as libjit_pool_max_f computes it for
      the output's channels, and for output cell `o` the recorded argmax at
      inXY[2 * o] (x) and inXY[2 * o + 1] (y). */
  function PoolMaxXY(inW: seq<real>, outW: seq<real>, inXY: seq<nat>,
                     inWdims: seq<nat>, outWdims: seq<nat>, k: nat, stride: nat, pad: nat)
    : (r: PoolXY)
    requires PoolXYShapes(inW, outW, inXY, inWdims, outWdims, k, stride, pad)
    ensures |r.outW| == |outW| && |r.inXY| == |inXY|
  {
    var out := seq(|outW|, o requires 0 <= o < |outW| =>
      var c := Unravel(outWdims, o);
      WindowMax(Window(inW, inWdims, c[0], c[3], Origin(c[1], stride, pad), Origin(c[2], stride, pad), k)));
    var xy := seq(|inXY|, i requires 0 <= i < |inXY| =>
      RecordedArg(inW, inWdims, outWdims, k, stride, pad, i / 2, i % 2 == 1));
    PoolXY(out, xy)
  }

  /** On inputs both kernels accept with the same channel count, the
      argmax-recording kernel writes the same output as libjit_pool_max_f. */
  lemma PoolMaxXYAgrees(inW: seq<real>, outW: seq<real>, inXY: seq<nat>,
                        inWdims: seq<nat>, outWdims: seq<nat>, k: nat, stride: nat, pad: nat)
    requires PoolXYShapes(inW, outW, inXY, inWdims, outWdims, k, stride, pad)
    requires inWdims[3] == outWdims[3]
    ensures PoolShapes(inW, outW, inWdims, outWdims)
    ensures PoolMaxXY(inW, outW, inXY, inWdims, outWdims, k, stride, pad).outW
         == PoolMax(inW, outW, inWdims, outWdims, k, stride, pad)
  {
  }

  /** Output cell (n, ax, ay, z) holds its window's maximum, and its two
      record slots hold the window's argmax. */
  lemma PoolMaxXYCell(inW: seq<real>, outW: seq<real>, inXY: seq<nat>,
                      inWdims: seq<nat>, outWdims: seq<nat>, k: nat, stride: nat, pad: nat,
                      n: nat, ax: nat, ay: nat, z: nat)
    requires PoolXYShapes(inW, outW, inXY, inWdims, outWdims, k, stride, pad)
    requires n < outWdims[0] && ax < outWdims[1] && ay < outWdims[2] && z < outWdims[3]
    ensures GetXYZW(outWdims, n, ax, ay, z) < Volume(outWdims)
    ensures ScanMax(Window(inW, inWdims, n, z, Origin(ax, stride, pad), Origin(ay, stride, pad), k)).Best?
    ensures var o := GetXYZW(outWdims, n, ax, ay, z);
      var r := PoolMaxXY(inW, outW, inXY, inWdims, outWdims, k, stride, pad);
      var x := Origin(ax, stride, pad);
      var y := Origin(ay, stride, pad);
      && r.outW[o] == WindowMax(Window(inW, inWdims, n, z, x, y, k))
      && r.inXY[2 * o] == ArgMax(inW, inWdims, n, z, x, y, k).0
      && r.inXY[2 * o + 1] == ArgMax(inW, inWdims, n, z, x, y, k).1
  {
    var o := GetXYZW(outWdims, n, ax, ay, z);
    UnravelXYZW(outWdims, n, ax, ay, z);
    CoveredWindowHasTap(inW, inWdims, outWdims, k, stride, pad, n, ax, ay, z);
    assert (2 * o) / 2 == o && (2 * o) % 2 == 0;
    assert (2 * o + 1) / 2 == o && (2 * o + 1) % 2 == 1;
  }

  /** The argmax is the tap the scan settled on: it lies inside the window
      and the input and holds the window's maximum. */
  lemma ArgMaxInWindow(inW: seq<real>, inWdims: seq<nat>, n: nat, z: nat, x: int, y: int, k: nat)
    requires |inWdims| == 4 && |inW| == Volume(inWdims)
    requires n < inWdims[0] && z < inWdims[3]
    requires ScanMax(Window(inW, inWdims, n, z, x, y, k)).Best?
    ensures var p := ArgMax(inW, inWdims, n, z, x, y, k);
      x <= p.0 < x + k && y <= p.1 < y + k
    ensures var p := ArgMax(inW, inWdims, n, z, x, y, k);
      var c := TapOf(k, ScanMax(Window(inW, inWdims, n, z, x, y, k)).idx);
      p.0 - x == c.0 && p.1 - y == c.1
    ensures var p := ArgMax(inW, inWdims, n, z, x, y, k);
      inW[GetXYZW(inWdims, n, p.0, p.1, z)] == WindowMax(Window(inW, inWdims, n, z, x, y, k))
  {
    var w := Window(inW, inWdims, n, z, x, y, k);
    var s := ScanMax(w);
    TapOfPosition(k, s.idx);
    var c := TapOf(k, s.idx);
    var p := ArgMax(inW, inWdims, n, z, x, y, k);
    assert p.0 == x + c.0 && p.1 == y + c.1;
    WindowTap(inW, inWdims, n, z, x, y, k, c.0, c.1);
    TapAtValue(inW, inWdims, n, z, x, y, c.0, c.1, p.0, p.1);
  }

  /** A tap inside the input, at input position (ox, oy), reads the element there. */
  lemma TapAtValue(inW: seq<real>, inWdims: seq<nat>, n: nat, z: nat, x: int, y: int,
                   fx: nat, fy: nat, ox: nat, oy: nat)
    requires |inWdims| == 4 && |inW| == Volume(inWdims)
    requires n < inWdims[0] && z < inWdims[3]
    requires ox == x + fx && oy == y + fy && ox < inWdims[1] && oy < inWdims[2]
    ensures TapAt(inW, inWdims, n, z, x, y, fx, fy) == Some(inW[GetXYZW(inWdims, n, ox, oy, z)])
  {
  }

  /** No in-bounds tap after the argmax in scan order holds a value as
      large as the maximum: among equal maxima the last is recorded. */
  lemma ArgMaxIsLastMax(inW: seq<real>, inWdims: seq<nat>, n: nat, z: nat, x: int, y: int, k: nat)
    requires |inWdims| == 4 && |inW| == Volume(inWdims)
    requires n < inWdims[0] && z < inWdims[3]
    requires ScanMax(Window(inW, inWdims, n, z, x, y, k)).Best?
    ensures var p := ArgMax(inW, inWdims, n, z, x, y, k);
      forall fx: nat, fy: nat ::
        (fx < k && fy < k && TapAt(inW, inWdims, n, z, x, y, fx, fy).Some?
         && Later(fx, fy, p.0 - x, p.1 - y)) ==>
        TapAt(inW, inWdims, n, z, x, y, fx, fy).value < WindowMax(Window(inW, inWdims, n, z, x, y, k))
  {
    var w := Window(inW, inWdims, n, z, x, y, k);
    ArgMaxInWindow(inW, inWdims, n, z, x, y, k);
    var c := TapOf(k, ScanMax(w).idx);
    forall fx: nat, fy: nat | fx < k && fy < k && TapAt(inW, inWdims, n, z, x, y, fx, fy).Some?
                              && Later(fx, fy, c.0, c.1)
      ensures TapAt(inW, inWdims, n, z, x, y, fx, fy).value < WindowMax(w)
    {
      WindowTap(inW, inWdims, n, z, x, y, k, fx, fy);
      LaterInScan(k, fx, fy, c.0, c.1);
    }
  }

  // ---------------------------------------------------------------------------
  // Max pooling gradient

  /** The recorded argmax coordinates of output cell `o`. */
  function ArgX(inXY: seq<nat>, o: nat): nat
    requires 2 * o + 1 < |inXY|
  {
    inXY[2 * o]
  }

  function ArgY(inXY: seq<nat>, o: nat): nat
    requires 2 * o + 1 < |inXY|
  {
    inXY[2 * o + 1]
  }

  /** Extents libjit_pool_max_xy_grad_f needs of the output gradient and
      the recorded coordinates, which must address the input gradient. */
  predicate RecordShapes(outG: seq<real>, inXY: seq<nat>, inGdims: seq<nat>, outWdims: seq<nat>)
  {
    && |inGdims| == 4 && |outWdims| == 4
    && |outG| == Volume(outWdims) && |inXY| == 2 * Volume(outWdims)
    && outWdims[0] <= inGdims[0] && outWdims[3] <= inGdims[3]
    && forall o :: 0 <= o < Volume(outWdims) ==> ArgX(inXY, o) < inGdims[1] && ArgY(inXY, o) < inGdims[2]
  }

  /** The gradient buffer with the H x W plane of every batch and channel the
      output has set to 0. */
  function ClearPlanes(inG: seq<real>, inGdims: seq<nat>, batches: nat, channels: nat): (r: seq<real>)
    requires |inGdims| == 4 && |inG| == Volume(inGdims)
    ensures |r| == |inG|
  {
    seq(|inG|, i requires 0 <= i < |inG| =>
      var c := Unravel(inGdims, i);
      if c[0] < batches && c[3] < channels then 0.0 else inG[i])
  }

  lemma ClearPlanesCell(inG: seq<real>, inGdims: seq<nat>, batches: nat, channels: nat,
                        n: nat, x: nat, y: nat, z: nat)
    requires |inGdims| == 4 && |inG| == Volume(inGdims)
    requires n < inGdims[0] && x < inGdims[1] && y < inGdims[2] && z < inGdims[3]
    ensures GetXYZW(inGdims, n, x, y, z) < |inG|
    ensures ClearPlanes(inG, inGdims, batches, channels)[GetXYZW(inGdims, n, x, y, z)]
         == if n < batches && z < channels then 0.0 else inG[GetXYZW(inGdims, n, x, y, z)]
  {
    UnravelXYZW(inGdims, n, x, y, z);
  }

  /** Clearing every plane leaves a buffer that sums to zero. */
  lemma ClearedSumsToZero(inG: seq<real>, inGdims: seq<nat>)
    requires |inGdims| == 4 && |inG| == Volume(inGdims)
    ensures Sum(ClearPlanes(inG, inGdims, inGdims[0], inGdims[3])) == 0.0
  {
    ClearAllPlanes(inG, inGdims);
    SumZeros(|inG|);
  }

  /** Clearing every plane leaves a zero buffer. */
  lemma ClearAllPlanes(inG: seq<real>, inGdims: seq<nat>)
    requires |inGdims| == 4 && |inG| == Volume(inGdims)
    ensures ClearPlanes(inG, inGdims, inGdims[0], inGdims[3]) == Zeros(|inG|)
  {
  }

  /** Output cell `o` sends its gradient to the input cell it recorded. */
  function MaxGradStream(outG: seq<real>, inXY: seq<nat>, inGdims: seq<nat>, outWdims: seq<nat>)
    : (cs: seq<Contribution>)
    requires RecordShapes(outG, inXY, inGdims, outWdims)
    ensures |cs| == |outG| && Targets(cs, Volume(inGdims))
    ensures forall o :: 0 <= o < |cs| ==> cs[o].value == outG[o]
  {
    seq(|outG|, o requires 0 <= o < |outG| =>
      var c := Unravel(outWdims, o);
      Contribution(GetXYZW(inGdims, c[0], ArgX(inXY, o), ArgY(inXY, o), c[3]), outG[o]))
  }

  /** libjit_pool_max_xy_grad_f: the planes the output covers are cleared and
      each output gradient is added at the input cell its window recorded. */
  function PoolMaxGrad(inG: seq<real>, outG: seq<real>, inXY: seq<nat>,
                       inGdims: seq<nat>, outWdims: seq<nat>): (r: seq<real>)
    requires RecordShapes(outG, inXY, inGdims, outWdims) && |inG| == Volume(inGdims)
    ensures |r| == |inG|
  {
    ScatterAdd(ClearPlanes(inG, inGdims, outWdims[0], outWdims[3]),
               MaxGradStream(outG, inXY, inGdims, outWdims))
  }

  /** A cell of a cleared plane receives the gradients of exactly the output
      cells that recorded it; a cell of any other plane keeps its value. */
  lemma PoolMaxGradCell(inG: seq<real>, outG: seq<real>, inXY: seq<nat>,
                        inGdims: seq<nat>, outWdims: seq<nat>, n: nat, x: nat, y: nat, z: nat)
    requires RecordShapes(outG, inXY, inGdims, outWdims) && |inG| == Volume(inGdims)
    requires n < inGdims[0] && x < inGdims[1] && y < inGdims[2] && z < inGdims[3]
    ensures GetXYZW(inGdims, n, x, y, z) < |inG|
    ensures var cell := GetXYZW(inGdims, n, x, y, z);
      PoolMaxGrad(inG, outG, inXY, inGdims, outWdims)[cell]
      == if n < outWdims[0] && z < outWdims[3]
         then GatherSum(MaxGradStream(outG, inXY, inGdims, outWdims), cell)
         else inG[cell]
  {
    var cell := GetXYZW(inGdims, n, x, y, z);
    var cs := MaxGradStream(outG, inXY, inGdims, outWdims);
    ClearPlanesCell(inG, inGdims, outWdims[0], outWdims[3], n, x, y, z);
    ScatterGather(ClearPlanes(inG, inGdims, outWdims[0], outWdims[3]), cs, cell);
    if !(n < outWdims[0] && z < outWdims[3]) {
      forall o | 0 <= o < |cs|
        ensures cs[o].cell != cell
      {
        MaxGradTarget(outG, inXY, inGdims, outWdims, o, n, x, y, z);
      }
      GatherMissed(cs, cell);
    }
  }

  /** Output cell `o` sends its gradient to input cell (n, x, y, z) exactly
      when `o` lies in batch n and channel z and recorded (x, y). */
  lemma MaxGradTarget(outG: seq<real>, inXY: seq<nat>, inGdims: seq<nat>, outWdims: seq<nat>,
                      o: nat, n: nat, x: nat, y: nat, z: nat)
    requires RecordShapes(outG, inXY, inGdims, outWdims) && o < |outG|
    requires n < inGdims[0] && x < inGdims[1] && y < inGdims[2] && z < inGdims[3]
    ensures var c := Unravel(outWdims, o);
      MaxGradStream(outG, inXY, inGdims, outWdims)[o].cell == GetXYZW(inGdims, n, x, y, z)
      <==> c[0] == n && c[3] == z && ArgX(inXY, o) == x && ArgY(inXY, o) == y
  {
    var c := Unravel(outWdims, o);
    if MaxGradStream(outG, inXY, inGdims, outWdims)[o].cell == GetXYZW(inGdims, n, x, y, z) {
      GetXYZWInjective(inGdims, c[0], ArgX(inXY, o), ArgY(inXY, o), c[3], n, x, y, z);
    }
  }

  /** A cell of a cleared plane that no output cell of its batch and channel
      recorded as argmax ends at 0. */
  lemma PoolMaxGradUnrecorded(inG: seq<real>, outG: seq<real>, inXY: seq<nat>,
                              inGdims: seq<nat>, outWdims: seq<nat>, n: nat, x: nat, y: nat, z: nat)
    requires RecordShapes(outG, inXY, inGdims, outWdims) && |inG| == Volume(inGdims)
    requires n < outWdims[0] && x < inGdims[1] && y < inGdims[2] && z < outWdims[3]
    requires forall ax, ay :: ax < outWdims[1] && ay < outWdims[2] ==>
      ArgX(inXY, GetXYZW(outWdims, n, ax, ay, z)) != x || ArgY(inXY, GetXYZW(outWdims, n, ax, ay, z)) != y
    ensures GetXYZW(inGdims, n, x, y, z) < |inG|
    ensures PoolMaxGrad(inG, outG, inXY, inGdims, outWdims)[GetXYZW(inGdims, n, x, y, z)] == 0.0
  {
    var cell := GetXYZW(inGdims, n, x, y, z);
    var cs := MaxGradStream(outG, inXY, inGdims, outWdims);
    PoolMaxGradCell(inG, outG, inXY, inGdims, outWdims, n, x, y, z);
    forall o | 0 <= o < |cs|
      ensures cs[o].cell != cell
    {
      XYZWOfUnravel(outWdims, o);
      MaxGradTarget(outG, inXY, inGdims, outWdims, o, n, x, y, z);
    }
    GatherMissed(cs, cell);
  }

  /** When the output covers every batch and channel of the input gradient,
      the input gradient sums to the output gradient's sum. */
  lemma PoolMaxGradConserves(inG: seq<real>, outG: seq<real>, inXY: seq<nat>,
                             inGdims: seq<nat>, outWdims: seq<nat>)
    requires RecordShapes(outG, inXY, inGdims, outWdims) && |inG| == Volume(inGdims)
    requires outWdims[0] == inGdims[0] && outWdims[3] == inGdims[3]
    ensures Sum(PoolMaxGrad(inG, outG, inXY, inGdims, outWdims)) == Sum(outG)
  {
    var cs := MaxGradStream(outG, inXY, inGdims, outWdims);
    ClearAllPlanes(inG, inGdims);
    SumZeros(|inG|);
    ScatterTotal(ClearPlanes(inG, inGdims, outWdims[0], outWdims[3]), cs);
    TotalOfValues(cs, outG);
  }

  /** Indicator of the H x W plane of batch n and channel z. */
  function PlaneMask(dims: seq<nat>, n: nat, z: nat): (mask: seq<real>)
    requires |dims| == 4
    ensures |mask| == Volume(dims)
  {
    seq(Volume(dims), i requires 0 <= i < Volume(dims) =>
      var c := Unravel(dims, i);
      if c[0] == n && c[3] == z then 1.0 else 0.0)
  }

  /** Sum of the H x W plane of batch n and channel z. */
  function PlaneSum(buf: seq<real>, dims: seq<nat>, n: nat, z: nat): real
    requires |dims| == 4 && |buf| == Volume(dims)
  {
    Inner(buf, PlaneMask(dims, n, z))
  }

  /** Buffers that are never both nonzero at one index are orthogonal. */
  lemma {:induction false} InnerDisjoint(s: seq<real>, t: seq<real>)
    requires |s| == |t| && forall i :: 0 <= i < |s| ==> s[i] == 0.0 || t[i] == 0.0
    ensures Inner(s, t) == 0.0
    decreases |s|
  {
    if |s| > 0 {
      InnerDisjoint(s[..|s| - 1], t[..|t| - 1]);
    }
  }

  /** Every cell a plane of the output gradient sends to lies in the same
      plane of the input gradient: the first `m` contributions, weighted by
      the input plane's indicator, add up to the first `m` output gradients
      weighted by the output plane's indicator. */
  lemma {:induction false} MaxGradDotPlane(outG: seq<real>, inXY: seq<nat>, inGdims: seq<nat>,
                                           outWdims: seq<nat>, n: nat, z: nat, m: nat)
    requires RecordShapes(outG, inXY, inGdims, outWdims) && m <= |outG|
    ensures DotUpTo(MaxGradStream(outG, inXY, inGdims, outWdims), PlaneMask(inGdims, n, z), m)
         == Inner(outG[..m], PlaneMask(outWdims, n, z)[..m])
    decreases m
  {
    if m > 0 {
      var cs := MaxGradStream(outG, inXY, inGdims, outWdims);
      var c := Unravel(outWdims, m - 1);
      MaxGradDotPlane(outG, inXY, inGdims, outWdims, n, z, m - 1);
      UnravelXYZW(inGdims, c[0], ArgX(inXY, m - 1), ArgY(inXY, m - 1), c[3]);
      assert PlaneMask(inGdims, n, z)[CellOf(cs, m - 1)] == PlaneMask(outWdims, n, z)[m - 1];
      InnerPrefix(outG, PlaneMask(outWdims, n, z), m);
    }
  }

  /** Plane by plane, the input gradient of a plane the output covers sums
      to the output gradient's sum over that plane. */
  lemma PoolMaxGradPlane(inG: seq<real>, outG: seq<real>, inXY: seq<nat>,
                         inGdims: seq<nat>, outWdims: seq<nat>, n: nat, z: nat)
    requires RecordShapes(outG, inXY, inGdims, outWdims) && |inG| == Volume(inGdims)
    requires n < outWdims[0] && z < outWdims[3]
    ensures PlaneSum(PoolMaxGrad(inG, outG, inXY, inGdims, outWdims), inGdims, n, z)
         == PlaneSum(outG, outWdims, n, z)
  {
    var cleared := ClearPlanes(inG, inGdims, outWdims[0], outWdims[3]);
    var cs := MaxGradStream(outG, inXY, inGdims, outWdims);
    var mask := PlaneMask(inGdims, n, z);
    forall i | 0 <= i < |cleared|
      ensures cleared[i] == 0.0 || mask[i] == 0.0
    {
    }
    InnerDisjoint(cleared, mask);
    ScatterDot(cleared, cs, mask);
    MaxGradDotPlane(outG, inXY, inGdims, outWdims, n, z, |outG|);
    assert outG[..|outG|] == outG;
    assert PlaneMask(outWdims, n, z)[..|outG|] == PlaneMask(outWdims, n, z);
  }

  // ---------------------------------------------------------------------------
  // Average pooling

  /** Sum of the taps that were read; skipped taps add nothing. */
  function SumTaps(w: seq<Option<real>>): real
  {
    if |w| == 0 then 0.0
    else SumTaps(w[..|w| - 1]) + (if w[|w| - 1].Some? then w[|w| - 1].value else 0.0)
  }

  /** Number of taps that were read. */
  function CountTaps(w: seq<Option<real>>): (r: nat)
    ensures r <= |w|
  {
    if |w| == 0 then 0
    else CountTaps(w[..|w| - 1]) + (if w[|w| - 1].Some? then 1 else 0)
  }

  /** libjit_pool_avg_f: the sum of the in-bounds taps divided by the full
      window area k * k, however many taps were skipped. */
  function PoolAvg(inW: seq<real>, outW: seq<real>, inWdims: seq<nat>, outWdims: seq<nat>,
                   k: nat, stride: nat, pad: nat): (r: seq<real>)
    requires PoolShapes(inW, outW, inWdims, outWdims) && k > 0
    ensures |r| == |outW|
  {
    seq(|outW|, o requires 0 <= o < |outW| =>
      var c := Unravel(outWdims, o);
      if c[3] < inWdims[3] then
        SumTaps(Window(inW, inWdims, c[0], c[3], Origin(c[1], stride, pad), Origin(c[2], stride, pad), k))
          / Area(k) as real
      else outW[o])
  }

  lemma PoolAvgCell(inW: seq<real>, outW: seq<real>, inWdims: seq<nat>, outWdims: seq<nat>,
                    k: nat, stride: nat, pad: nat, n: nat, ax: nat, ay: nat, z: nat)
    requires PoolShapes(inW, outW, inWdims, outWdims) && k > 0
    requires n < outWdims[0] && ax < outWdims[1] && ay < outWdims[2] && z < inWdims[3]
    ensures GetXYZW(outWdims, n, ax, ay, z) < |outW|
    ensures PoolAvg(inW, outW, inWdims, outWdims, k, stride, pad)[GetXYZW(outWdims, n, ax, ay, z)]
         == SumTaps(Window(inW, inWdims, n, z, Origin(ax, stride, pad), Origin(ay, stride, pad), k))
            / Area(k) as real
  {
    UnravelXYZW(outWdims, n, ax, ay, z);
  }

  /** Taps that all read the same value `v` sum to v times their number. */
  lemma {:induction false} SumTapsConstant(w: seq<Option<real>>, v: real)
    requires forall i :: 0 <= i < |w| && w[i].Some? ==> w[i].value == v
    ensures SumTaps(w) == Scaled(CountTaps(w), v)
    decreases |w|
  {
    if |w| > 0 {
      SumTapsConstant(w[..|w| - 1], v);
    }
  }

  /** A window inside the input reads all of its k * k taps. */
  lemma {:induction false} CountInterior(inW: seq<real>, inWdims: seq<nat>, n: nat, z: nat,
                                         x: int, y: int, k: nat)
    requires |inWdims| == 4 && |inW| == Volume(inWdims)
    requires n < inWdims[0] && z < inWdims[3] && k > 0
    requires 0 <= x && x + k <= inWdims[1] && 0 <= y && y + k <= inWdims[2]
    ensures CountTaps(Window(inW, inWdims, n, z, x, y, k)) == Area(k)
  {
    var w := Window(inW, inWdims, n, z, x, y, k);
    forall t | 0 <= t < |w|
      ensures w[t].Some?
    {
      TapOfPosition(k, t);
    }
    CountAll(w);
  }

  lemma {:induction false} CountAll(w: seq<Option<real>>)
    requires forall i :: 0 <= i < |w| ==> w[i].Some?
    ensures CountTaps(w) == |w|
    decreases |w|
  {
    if |w| > 0 {
      CountAll(w[..|w| - 1]);
    }
  }

  /** The nominal divisor: on an input whose every element is `v`, an
      output cell holds v scaled by the fraction of its window that lies
      inside the input, and exactly v when the whole window does. */
  lemma PoolAvgOfConstant(inW: seq<real>, outW: seq<real>, inWdims: seq<nat>, outWdims: seq<nat>,
                          k: nat, stride: nat, pad: nat, n: nat, ax: nat, ay: nat, z: nat, v: real)
    requires PoolShapes(inW, outW, inWdims, outWdims) && k > 0
    requires n < outWdims[0] && ax < outWdims[1] && ay < outWdims[2] && z < inWdims[3]
    requires forall i :: 0 <= i < |inW| ==> inW[i] == v
    ensures GetXYZW(outWdims, n, ax, ay, z) < |outW|
    ensures var x := Origin(ax, stride, pad);
      var y := Origin(ay, stride, pad);
      PoolAvg(inW, outW, inWdims, outWdims, k, stride, pad)[GetXYZW(outWdims, n, ax, ay, z)]
      == Scaled(CountTaps(Window(inW, inWdims, n, z, x, y, k)), v) / Area(k) as real
    ensures var x := Origin(ax, stride, pad);
      var y := Origin(ay, stride, pad);
      0 <= x && x + k <= inWdims[1] && 0 <= y && y + k <= inWdims[2] ==>
        PoolAvg(inW, outW, inWdims, outWdims, k, stride, pad)[GetXYZW(outWdims, n, ax, ay, z)] == v
  {
    var x := Origin(ax, stride, pad);
    var y := Origin(ay, stride, pad);
    var w := Window(inW, inWdims, n, z, x, y, k);
    PoolAvgCell(inW, outW, inWdims, outWdims, k, stride, pad, n, ax, ay, z);
    forall i | 0 <= i < |w| && w[i].Some?
      ensures w[i].value == v
    {
      TapOfPosition(k, i);
    }
    var interior := 0 <= x && x + k <= inWdims[1] && 0 <= y && y + k <= inWdims[2];
    if interior {
      CountInterior(inW, inWdims, n, z, x, y, k);
    }
    AverageOfConstant(w, v, k, interior);
  }

  /** Averaging taps that all read `v` over the nominal area. */
  lemma AverageOfConstant(w: seq<Option<real>>, v: real, k: nat, full: bool)
    requires k > 0
    requires forall i :: 0 <= i < |w| && w[i].Some? ==> w[i].value == v
    requires full ==> CountTaps(w) == Area(k)
    ensures SumTaps(w) / Area(k) as real == Scaled(CountTaps(w), v) / Area(k) as real
    ensures full ==> SumTaps(w) / Area(k) as real == v
  {
    SumTapsConstant(w, v);
    if full {
      ScaledOver(Area(k), v);
    }
  }

  /** `a` copies of `v`, divided by `a`, give `v` back. */
  lemma ScaledOver(a: nat, v: real)
    requires a > 0
    ensures Scaled(a, v) / a as real == v
  {
    ScaledIsProduct(a, v);
  }

  // ---------------------------------------------------------------------------
  // Average pooling gradient

  /** The contributions of the first `m` taps of one window: `df` to every
      in-bounds tap. */
  function WindowStream(inGdims: seq<nat>, n: nat, z: nat, x: int, y: int, k: nat, df: real, m: nat)
    : (cs: seq<Contribution>)
    requires |inGdims| == 4 && n < inGdims[0] && z < inGdims[3] && k > 0
    ensures Targets(cs, Volume(inGdims))
    ensures Carries(cs, df)
    decreases m
  {
    if m == 0 then []
    else
      var rest := WindowStream(inGdims, n, z, x, y, k, df, m - 1);
      var last := TapStream(inGdims, n, z, x, y, k, df, m - 1);
      TargetsAppend(rest, last, Volume(inGdims));
      CarriesAppend(rest, last, df);
      rest + last
  }

  /** The contribution of the tap at scan position `t`: `df` to its cell
      when it lies inside the input, nothing when it is skipped. */
  function TapStream(inGdims: seq<nat>, n: nat, z: nat, x: int, y: int, k: nat, df: real, t: nat)
    : (cs: seq<Contribution>)
    requires |inGdims| == 4 && n < inGdims[0] && z < inGdims[3] && k > 0
    ensures Targets(cs, Volume(inGdims))
    ensures Carries(cs, df)
    ensures |cs| == if TapIn(inGdims, x + TapOf(k, t).0, y + TapOf(k, t).1) then 1 else 0
  {
    var c := TapOf(k, t);
    if TapIn(inGdims, x + c.0, y + c.1) then
      [Contribution(GetXYZW(inGdims, n, (x + c.0) as nat, (y + c.1) as nat, z), df)]
    else []
  }

  /** The contributions of the first `m` output cells in NHWC order: each
      spreads its gradient, divided by the window area, over its window. */
  function AvgGradStream(outG: seq<real>, inGdims: seq<nat>, outWdims: seq<nat>,
                         k: nat, stride: nat, pad: nat, m: nat): (cs: seq<Contribution>)
    requires |inGdims| == 4 && |outWdims| == 4 && |outG| == Volume(outWdims)
    requires outWdims[0] <= inGdims[0] && outWdims[3] <= inGdims[3]
    requires m <= |outG|
    ensures Targets(cs, Volume(inGdims))
    decreases m
  {
    if m == 0 then []
    else
      var rest := AvgGradStream(outG, inGdims, outWdims, k, stride, pad, m - 1);
      var last := CellStream(outG, inGdims, outWdims, k, stride, pad, m - 1);
      TargetsAppend(rest, last, Volume(inGdims));
      rest + last
  }

  /** libjit_pool_avg_grad_f: the planes the output covers are cleared and
      every output gradient, divided by k * k, is added to each in-bounds tap
      of its window. */
  function PoolAvgGrad(inG: seq<real>, outG: seq<real>, inGdims: seq<nat>, outWdims: seq<nat>,
                       k: nat, stride: nat, pad: nat): (r: seq<real>)
    requires |inGdims| == 4 && |outWdims| == 4 && |outG| == Volume(outWdims)
    requires outWdims[0] <= inGdims[0] && outWdims[3] <= inGdims[3] && |inG| == Volume(inGdims)
    ensures |r| == |inG|
  {
    ScatterAdd(ClearPlanes(inG, inGdims, outWdims[0], outWdims[3]),
               AvgGradStream(outG, inGdims, outWdims, k, stride, pad, |outG|))
  }

  /** A cell of a cleared plane receives the contributions aimed at it; a
      cell of any other plane keeps its value. */
  lemma PoolAvgGradCell(inG: seq<real>, outG: seq<real>, inGdims: seq<nat>, outWdims: seq<nat>,
                        k: nat, stride: nat, pad: nat, n: nat, x: nat, y: nat, z: nat)
    requires |inGdims| == 4 && |outWdims| == 4 && |outG| == Volume(outWdims)
    requires outWdims[0] <= inGdims[0] && outWdims[3] <= inGdims[3] && |inG| == Volume(inGdims)
    requires n < inGdims[0] && x < inGdims[1] && y < inGdims[2] && z < inGdims[3]
    ensures GetXYZW(inGdims, n, x, y, z) < |inG|
    ensures var cell := GetXYZW(inGdims, n, x, y, z);
      PoolAvgGrad(inG, outG, inGdims, outWdims, k, stride, pad)[cell]
      == if n < outWdims[0] && z < outWdims[3]
         then GatherSum(AvgGradStream(outG, inGdims, outWdims, k, stride, pad, |outG|), cell)
         else inG[cell]
    ensures n < outWdims[0] && z < outWdims[3] ==>
      PoolAvgGrad(inG, outG, inGdims, outWdims, k, stride, pad)[GetXYZW(inGdims, n, x, y, z)]
      == Shares(outG, outWdims, k, stride, pad, |outG|, n, x, y, z)
  {
    var cell := GetXYZW(inGdims, n, x, y, z);
    var cs := AvgGradStream(outG, inGdims, outWdims, k, stride, pad, |outG|);
    ClearPlanesCell(inG, inGdims, outWdims[0], outWdims[3], n, x, y, z);
    ScatterGather(ClearPlanes(inG, inGdims, outWdims[0], outWdims[3]), cs, cell);
    AvgGradStreamGather(outG, inGdims, outWdims, k, stride, pad, |outG|, n, x, y, z);
    if !(n < outWdims[0] && z < outWdims[3]) {
      SharesOutsidePlanes(outG, outWdims, k, stride, pad, |outG|, n, x, y, z);
    }
  }

  /** (x, y) is one of the k * k taps of the window whose top-left corner is
      (wx, wy). */
  predicate InWindow(k: nat, wx: int, wy: int, x: int, y: int)
  {
    wx <= x < wx + k && wy <= y < wy + k
  }

  /** The window of output cell `o` covers input cell (n, x, y, z): `o` lies
      in batch n and channel z, and (x, y) is one of its taps. */
  predicate Covers(outWdims: seq<nat>, k: nat, stride: nat, pad: nat, o: nat,
                   n: nat, x: nat, y: nat, z: nat)
    requires |outWdims| == 4 && o < Volume(outWdims)
  {
    var c := Unravel(outWdims, o);
    c[0] == n && c[3] == z && InWindow(k, Origin(c[1], stride, pad), Origin(c[2], stride, pad), x, y)
  }

  /** The independent reading of the average-pool gradient: input cell
      (n, x, y, z) receives outG[o] / (k * k) from every output cell `o`
      below `m` whose window covers it. */
  function Shares(outG: seq<real>, outWdims: seq<nat>, k: nat, stride: nat, pad: nat, m: nat,
                  n: nat, x: nat, y: nat, z: nat): real
    requires |outWdims| == 4 && |outG| == Volume(outWdims) && m <= |outG|
    decreases m
  {
    if m == 0 then 0.0
    else Shares(outG, outWdims, k, stride, pad, m - 1, n, x, y, z)
         + (if Covers(outWdims, k, stride, pad, m - 1, n, x, y, z) then outG[m - 1] / Area(k) as real else 0.0)
  }

  /** A cell outside the batches and channels of the output is covered by
      no window. */
  lemma {:induction false} SharesOutsidePlanes(outG: seq<real>, outWdims: seq<nat>, k: nat, stride: nat, pad: nat,
                                               m: nat, n: nat, x: nat, y: nat, z: nat)
    requires |outWdims| == 4 && |outG| == Volume(outWdims) && m <= |outG|
    requires !(n < outWdims[0] && z < outWdims[3])
    ensures Shares(outG, outWdims, k, stride, pad, m, n, x, y, z) == 0.0
    decreases m
  {
    if m > 0 {
      SharesOutsidePlanes(outG, outWdims, k, stride, pad, m - 1, n, x, y, z);
    }
  }

  /** The first `m` taps of one window aim `df` at cell (n, x, y, z) once
      when the cell is a tap of that window scanned before position `m`,
      and not at all otherwise. */
  lemma {:induction false} WindowStreamGather(inGdims: seq<nat>, wn: nat, wz: nat, wx: int, wy: int,
                                              k: nat, df: real, m: nat, n: nat, x: nat, y: nat, z: nat)
    requires |inGdims| == 4 && wn < inGdims[0] && wz < inGdims[3] && k > 0 && m <= Area(k)
    requires n < inGdims[0] && x < inGdims[1] && y < inGdims[2] && z < inGdims[3]
    ensures GatherSum(WindowStream(inGdims, wn, wz, wx, wy, k, df, m), GetXYZW(inGdims, n, x, y, z))
         == if wn == n && wz == z && ScannedBefore(k, wx, wy, x, y, m) then df else 0.0
    decreases m
  {
    if m > 0 {
      WindowStreamGather(inGdims, wn, wz, wx, wy, k, df, m - 1, n, x, y, z);
      ScanStep(k, wx, wy, x, y, m);
      TapStreamGather(inGdims, wn, wz, wx, wy, k, df, m - 1, n, x, y, z);
      GatherAppend(WindowStream(inGdims, wn, wz, wx, wy, k, df, m - 1),
                   TapStream(inGdims, wn, wz, wx, wy, k, df, m - 1), GetXYZW(inGdims, n, x, y, z));
    }
  }

  /** (x, y) is a tap of the window at (wx, wy) that the scan visits before
      position `m`. */
  predicate ScannedBefore(k: nat, wx: int, wy: int, x: int, y: int, m: nat)
  {
    InWindow(k, wx, wy, x, y) && Pos(k, (x - wx) as nat, (y - wy) as nat) < m
  }

  /** Scanning one position further adds exactly the tap at that position. */
  lemma ScanStep(k: nat, wx: int, wy: int, x: int, y: int, m: nat)
    requires k > 0 && 0 < m <= Area(k)
    ensures var c := TapOf(k, m - 1);
      ScannedBefore(k, wx, wy, x, y, m)
      <==> ScannedBefore(k, wx, wy, x, y, m - 1) || (wx + c.0 == x && wy + c.1 == y)
    ensures var c := TapOf(k, m - 1);
      wx + c.0 == x && wy + c.1 == y ==> !ScannedBefore(k, wx, wy, x, y, m - 1)
  {
    var c := TapOf(k, m - 1);
    TapOfPosition(k, m - 1);
    if InWindow(k, wx, wy, x, y) {
      var fx, fy := (x - wx) as nat, (y - wy) as nat;
      PositionOfTap(k, fx, fy);
      if Pos(k, fx, fy) == m - 1 {
        assert c.0 == fx && c.1 == fy;
      }
    }
    if wx + c.0 == x && wy + c.1 == y {
      assert InWindow(k, wx, wy, x, y);
    }
  }

  /** The tap at scan position `t` adds `df` at cell (n, x, y, z) exactly
      when it is that cell. */
  lemma TapStreamGather(inGdims: seq<nat>, wn: nat, wz: nat, wx: int, wy: int,
                        k: nat, df: real, t: nat, n: nat, x: nat, y: nat, z: nat)
    requires |inGdims| == 4 && wn < inGdims[0] && wz < inGdims[3] && k > 0
    requires n < inGdims[0] && x < inGdims[1] && y < inGdims[2] && z < inGdims[3]
    ensures GatherSum(TapStream(inGdims, wn, wz, wx, wy, k, df, t), GetXYZW(inGdims, n, x, y, z))
         == if wn == n && wz == z && wx + TapOf(k, t).0 == x && wy + TapOf(k, t).1 == y then df else 0.0
  {
    var c := TapOf(k, t);
    var ts := TapStream(inGdims, wn, wz, wx, wy, k, df, t);
    if |ts| == 1 {
      var tx, ty := (wx + c.0) as nat, (wy + c.1) as nat;
      assert ts[..0] == [];
      if GetXYZW(inGdims, wn, tx, ty, wz) == GetXYZW(inGdims, n, x, y, z) {
        GetXYZWInjective(inGdims, wn, tx, ty, wz, n, x, y, z);
      }
    }
  }

  /** Output cell `o` aims outG[o] / (k * k) at input cell (n, x, y, z) once
      when its window covers the cell, and nothing otherwise. */
  lemma CellStreamGather(outG: seq<real>, inGdims: seq<nat>, outWdims: seq<nat>,
                         k: nat, stride: nat, pad: nat, o: nat, n: nat, x: nat, y: nat, z: nat)
    requires |inGdims| == 4 && |outWdims| == 4 && |outG| == Volume(outWdims)
    requires outWdims[0] <= inGdims[0] && outWdims[3] <= inGdims[3]
    requires o < |outG|
    requires n < inGdims[0] && x < inGdims[1] && y < inGdims[2] && z < inGdims[3]
    ensures GatherSum(CellStream(outG, inGdims, outWdims, k, stride, pad, o), GetXYZW(inGdims, n, x, y, z))
         == if Covers(outWdims, k, stride, pad, o, n, x, y, z) then outG[o] / Area(k) as real else 0.0
  {
    if k > 0 {
      var c := Unravel(outWdims, o);
      var wx, wy := Origin(c[1], stride, pad), Origin(c[2], stride, pad);
      var df := outG[o] / Area(k) as real;
      assert CellStream(outG, inGdims, outWdims, k, stride, pad, o)
          == WindowStream(inGdims, c[0], c[3], wx, wy, k, df, Area(k));
      WindowStreamGather(inGdims, c[0], c[3], wx, wy, k, df, Area(k), n, x, y, z);
      ScannedWholeWindow(k, wx, wy, x, y);
    }
  }

  /** The whole scan visits every tap of the window. */
  lemma ScannedWholeWindow(k: nat, wx: int, wy: int, x: int, y: int)
    requires k > 0
    ensures ScannedBefore(k, wx, wy, x, y, Area(k)) <==> InWindow(k, wx, wy, x, y)
  {
    if InWindow(k, wx, wy, x, y) {
      PositionOfTap(k, (x - wx) as nat, (y - wy) as nat);
    }
  }

  /** The stream of the first `m` output cells gathers, at every input cell,
      exactly the shares of the windows that cover it. */
  lemma {:induction false} AvgGradStreamGather(outG: seq<real>, inGdims: seq<nat>, outWdims: seq<nat>,
                                               k: nat, stride: nat, pad: nat, m: nat,
                                               n: nat, x: nat, y: nat, z: nat)
    requires |inGdims| == 4 && |outWdims| == 4 && |outG| == Volume(outWdims)
    requires outWdims[0] <= inGdims[0] && outWdims[3] <= inGdims[3]
    requires m <= |outG|
    requires n < inGdims[0] && x < inGdims[1] && y < inGdims[2] && z < inGdims[3]
    ensures GatherSum(AvgGradStream(outG, inGdims, outWdims, k, stride, pad, m), GetXYZW(inGdims, n, x, y, z))
         == Shares(outG, outWdims, k, stride, pad, m, n, x, y, z)
    decreases m
  {
    if k == 0 {
      EmptyKernelStream(outG, inGdims, outWdims, stride, pad, m);
      EmptyKernelShares(outG, outWdims, stride, pad, m, n, x, y, z);
    } else if m > 0 {
      AvgGradStreamGather(outG, inGdims, outWdims, k, stride, pad, m - 1, n, x, y, z);
      AvgGradGatherStep(outG, inGdims, outWdims, k, stride, pad, m, n, x, y, z);
    }
  }

  /** One more output cell adds its share exactly when its window covers
      the cell. */
  lemma AvgGradGatherStep(outG: seq<real>, inGdims: seq<nat>, outWdims: seq<nat>,
                          k: nat, stride: nat, pad: nat, m: nat, n: nat, x: nat, y: nat, z: nat)
    requires |inGdims| == 4 && |outWdims| == 4 && |outG| == Volume(outWdims)
    requires outWdims[0] <= inGdims[0] && outWdims[3] <= inGdims[3]
    requires 0 < m <= |outG| && k > 0
    requires n < inGdims[0] && x < inGdims[1] && y < inGdims[2] && z < inGdims[3]
    requires GatherSum(AvgGradStream(outG, inGdims, outWdims, k, stride, pad, m - 1), GetXYZW(inGdims, n, x, y, z))
          == Shares(outG, outWdims, k, stride, pad, m - 1, n, x, y, z)
    ensures GatherSum(AvgGradStream(outG, inGdims, outWdims, k, stride, pad, m), GetXYZW(inGdims, n, x, y, z))
         == Shares(outG, outWdims, k, stride, pad, m, n, x, y, z)
  {
    var cell := GetXYZW(inGdims, n, x, y, z);
    var rest := AvgGradStream(outG, inGdims, outWdims, k, stride, pad, m - 1);
    var last := CellStream(outG, inGdims, outWdims, k, stride, pad, m - 1);
    CellStreamGather(outG, inGdims, outWdims, k, stride, pad, m - 1, n, x, y, z);
    GatherAppend(rest, last, cell);
  }

  /** A kernel of size 0 has no taps: no output cell contributes anything. */
  lemma {:induction false} EmptyKernelStream(outG: seq<real>, inGdims: seq<nat>, outWdims: seq<nat>,
                                             stride: nat, pad: nat, m: nat)
    requires |inGdims| == 4 && |outWdims| == 4 && |outG| == Volume(outWdims)
    requires outWdims[0] <= inGdims[0] && outWdims[3] <= inGdims[3]
    requires m <= |outG|
    ensures AvgGradStream(outG, inGdims, outWdims, 0, stride, pad, m) == []
    decreases m
  {
    if m > 0 {
      EmptyKernelStream(outG, inGdims, outWdims, stride, pad, m - 1);
    }
  }

  /** A kernel of size 0 covers no input cell. */
  lemma {:induction false} EmptyKernelShares(outG: seq<real>, outWdims: seq<nat>, stride: nat, pad: nat,
                                             m: nat, n: nat, x: nat, y: nat, z: nat)
    requires |outWdims| == 4 && |outG| == Volume(outWdims) && m <= |outG|
    ensures Shares(outG, outWdims, 0, stride, pad, m, n, x, y, z) == 0.0
    decreases m
  {
    if m > 0 {
      EmptyKernelShares(outG, outWdims, stride, pad, m - 1, n, x, y, z);
    }
  }

  /** Every tap of every window lies inside the input along one axis. */
  predicate Interior(inExt: nat, outExt: nat, k: nat, stride: nat, pad: nat)
  {
    pad == 0 && (outExt == 0 || Mul(outExt - 1, stride) + k <= inExt)
  }

  /** On an interior axis, window `a` lies inside the input. */
  lemma InteriorWindow(inExt: nat, outExt: nat, k: nat, stride: nat, pad: nat, a: nat)
    requires Interior(inExt, outExt, k, stride, pad) && a < outExt
    ensures 0 <= Origin(a, stride, pad) && Origin(a, stride, pad) + k <= inExt
  {
    MulMono(a, outExt - 1, stride);
  }

  /** A window inside the input reaches a cell with each of its taps. */
  lemma {:induction false} WindowStreamLength(inGdims: seq<nat>, n: nat, z: nat, x: int, y: int,
                                              k: nat, df: real, m: nat)
    requires |inGdims| == 4 && n < inGdims[0] && z < inGdims[3] && k > 0
    requires 0 <= x && x + k <= inGdims[1] && 0 <= y && y + k <= inGdims[2]
    requires m <= Area(k)
    ensures |WindowStream(inGdims, n, z, x, y, k, df, m)| == m
    decreases m
  {
    if m > 0 {
      WindowStreamLength(inGdims, n, z, x, y, k, df, m - 1);
      TapOfPosition(k, m - 1);
    }
  }

  /** A window inside the input spreads k * k shares of `df`. */
  lemma WindowStreamTotal(inGdims: seq<nat>, n: nat, z: nat, x: int, y: int, k: nat, df: real)
    requires |inGdims| == 4 && n < inGdims[0] && z < inGdims[3] && k > 0
    requires 0 <= x && x + k <= inGdims[1] && 0 <= y && y + k <= inGdims[2]
    ensures TotalValue(WindowStream(inGdims, n, z, x, y, k, df, Area(k))) == Scaled(Area(k), df)
  {
    WindowStreamLength(inGdims, n, z, x, y, k, df, Area(k));
    TotalOfConstant(WindowStream(inGdims, n, z, x, y, k, df, Area(k)), df);
  }

  /** The k * k shares of g / (k * k) add up to g. */
  lemma SharesAddUp(k: nat, g: real)
    requires k > 0
    ensures Scaled(Area(k), g / Area(k) as real) == g
  {
    ScaledIsProduct(Area(k), g / Area(k) as real);
  }

  /** The contributions of output cell `o`: its gradient, divided by the
      window area, to each in-bounds tap of its window.  A kernel of size 0
      has no taps, so nothing is divided and nothing is added. */
  function CellStream(outG: seq<real>, inGdims: seq<nat>, outWdims: seq<nat>,
                      k: nat, stride: nat, pad: nat, o: nat): (cs: seq<Contribution>)
    requires |inGdims| == 4 && |outWdims| == 4 && |outG| == Volume(outWdims)
    requires outWdims[0] <= inGdims[0] && outWdims[3] <= inGdims[3]
    requires o < |outG|
    ensures Targets(cs, Volume(inGdims))
  {
    if k == 0 then []
    else
      var c := Unravel(outWdims, o);
      WindowStream(inGdims, c[0], c[3], Origin(c[1], stride, pad), Origin(c[2], stride, pad), k,
                   outG[o] / Area(k) as real, Area(k))
  }

  /** When every window lies inside the input, an output cell spreads
      exactly its gradient. */
  lemma CellStreamTotal(outG: seq<real>, inGdims: seq<nat>, outWdims: seq<nat>,
                        k: nat, stride: nat, pad: nat, o: nat)
    requires |inGdims| == 4 && |outWdims| == 4 && |outG| == Volume(outWdims) && k > 0
    requires outWdims[0] <= inGdims[0] && outWdims[3] <= inGdims[3]
    requires Interior(inGdims[1], outWdims[1], k, stride, pad)
    requires Interior(inGdims[2], outWdims[2], k, stride, pad)
    requires o < |outG|
    ensures TotalValue(CellStream(outG, inGdims, outWdims, k, stride, pad, o)) == outG[o]
  {
    var c := Unravel(outWdims, o);
    InteriorWindow(inGdims[1], outWdims[1], k, stride, pad, c[1]);
    InteriorWindow(inGdims[2], outWdims[2], k, stride, pad, c[2]);
    WindowStreamTotal(inGdims, c[0], c[3], Origin(c[1], stride, pad), Origin(c[2], stride, pad), k,
                      outG[o] / Area(k) as real);
    SharesAddUp(k, outG[o]);
  }

  /** When every window lies inside the input, the first `m` output cells
      spread exactly their gradients. */
  lemma {:induction false} AvgGradStreamTotal(outG: seq<real>, inGdims: seq<nat>, outWdims: seq<nat>,
                                              k: nat, stride: nat, pad: nat, m: nat)
    requires |inGdims| == 4 && |outWdims| == 4 && |outG| == Volume(outWdims) && k > 0
    requires outWdims[0] <= inGdims[0] && outWdims[3] <= inGdims[3]
    requires Interior(inGdims[1], outWdims[1], k, stride, pad)
    requires Interior(inGdims[2], outWdims[2], k, stride, pad)
    requires m <= |outG|
    ensures TotalValue(AvgGradStream(outG, inGdims, outWdims, k, stride, pad, m)) == Sum(outG[..m])
    decreases m
  {
    if m > 0 {
      AvgGradStreamTotal(outG, inGdims, outWdims, k, stride, pad, m - 1);
      CellStreamTotal(outG, inGdims, outWdims, k, stride, pad, m - 1);
      TotalAppend(AvgGradStream(outG, inGdims, outWdims, k, stride, pad, m - 1),
                  CellStream(outG, inGdims, outWdims, k, stride, pad, m - 1));
      SumPrefix(outG, m);
    }
  }

  /** When every window lies inside the input, the whole stream spreads
      exactly the output gradient's sum. */
  lemma AvgGradStreamSum(outG: seq<real>, inGdims: seq<nat>, outWdims: seq<nat>,
                         k: nat, stride: nat, pad: nat)
    requires |inGdims| == 4 && |outWdims| == 4 && |outG| == Volume(outWdims) && k > 0
    requires outWdims[0] <= inGdims[0] && outWdims[3] <= inGdims[3]
    requires Interior(inGdims[1], outWdims[1], k, stride, pad)
    requires Interior(inGdims[2], outWdims[2], k, stride, pad)
    ensures TotalValue(AvgGradStream(outG, inGdims, outWdims, k, stride, pad, |outG|)) == Sum(outG)
  {
    AvgGradStreamTotal(outG, inGdims, outWdims, k, stride, pad, |outG|);
    assert outG[..|outG|] == outG;
  }

  /** The cells of the H x W plane of batch n and channel z. */
  function PlaneCells(dims: seq<nat>, n: nat, z: nat): (sel: seq<bool>)
    requires |dims| == 4
    ensures |sel| == Volume(dims)
    ensures forall i :: 0 <= i < |sel| ==> PlaneMask(dims, n, z)[i] == if sel[i] then 1.0 else 0.0
  {
    seq(Volume(dims), i requires 0 <= i < Volume(dims) =>
      var c := Unravel(dims, i);
      c[0] == n && c[3] == z)
  }

  /** Sum of the first `m` elements of `g` that lie in plane (n, z). */
  function PlanePrefix(g: seq<real>, dims: seq<nat>, n: nat, z: nat, m: nat): real
    requires |dims| == 4 && |g| == Volume(dims) && m <= |g|
  {
    if m == 0 then 0.0
    else PlanePrefix(g, dims, n, z, m - 1) + (if PlaneCells(dims, n, z)[m - 1] then g[m - 1] else 0.0)
  }

  /** Counting a plane's elements one by one gives its masked sum. */
  lemma {:induction false} PlanePrefixIsInner(g: seq<real>, dims: seq<nat>, n: nat, z: nat, m: nat)
    requires |dims| == 4 && |g| == Volume(dims) && m <= |g|
    ensures Inner(g[..m], PlaneMask(dims, n, z)[..m]) == PlanePrefix(g, dims, n, z, m)
    decreases m
  {
    if m > 0 {
      PlanePrefixIsInner(g, dims, n, z, m - 1);
      InnerPrefix(g, PlaneMask(dims, n, z), m);
    }
  }

  /** The tap at scan position `t` adds its value to plane (pn, pz) when the
      window lies in that plane, and nothing to any other plane. */
  lemma TapStreamPlane(inGdims: seq<nat>, n: nat, z: nat, x: int, y: int, k: nat, df: real, t: nat,
                       pn: nat, pz: nat)
    requires |inGdims| == 4 && n < inGdims[0] && z < inGdims[3] && k > 0
    ensures SelectSum(TapStream(inGdims, n, z, x, y, k, df, t), PlaneCells(inGdims, pn, pz))
         == Scaled(|TapStream(inGdims, n, z, x, y, k, df, t)|, if n == pn && z == pz then df else 0.0)
  {
    var ts := TapStream(inGdims, n, z, x, y, k, df, t);
    var c := TapOf(k, t);
    if TapIn(inGdims, x + c.0, y + c.1) {
      var cell := GetXYZW(inGdims, n, (x + c.0) as nat, (y + c.1) as nat, z);
      UnravelXYZW(inGdims, n, (x + c.0) as nat, (y + c.1) as nat, z);
      assert ts == [Contribution(cell, df)];
      assert ts[..0] == [];
    }
  }

  /** The first `m` taps of a window add one share per in-bounds tap to
      plane (pn, pz) when the window lies in that plane, nothing otherwise. */
  lemma {:induction false} WindowStreamPlane(inGdims: seq<nat>, n: nat, z: nat, x: int, y: int,
                                             k: nat, df: real, m: nat, pn: nat, pz: nat)
    requires |inGdims| == 4 && n < inGdims[0] && z < inGdims[3] && k > 0
    ensures SelectSum(WindowStream(inGdims, n, z, x, y, k, df, m), PlaneCells(inGdims, pn, pz))
         == Scaled(|WindowStream(inGdims, n, z, x, y, k, df, m)|, if n == pn && z == pz then df else 0.0)
    decreases m
  {
    if m > 0 {
      var t: nat := m - 1;
      WindowStreamPlane(inGdims, n, z, x, y, k, df, t, pn, pz);
      WindowPlaneStep(inGdims, n, z, x, y, k, df, t, pn, pz);
    }
  }

  /** One more tap adds one more share to the plane it lies in. */
  lemma WindowPlaneStep(inGdims: seq<nat>, n: nat, z: nat, x: int, y: int,
                        k: nat, df: real, t: nat, pn: nat, pz: nat)
    requires |inGdims| == 4 && n < inGdims[0] && z < inGdims[3] && k > 0
    requires SelectSum(WindowStream(inGdims, n, z, x, y, k, df, t), PlaneCells(inGdims, pn, pz))
          == Scaled(|WindowStream(inGdims, n, z, x, y, k, df, t)|, if n == pn && z == pz then df else 0.0)
    ensures SelectSum(WindowStream(inGdims, n, z, x, y, k, df, t + 1), PlaneCells(inGdims, pn, pz))
         == Scaled(|WindowStream(inGdims, n, z, x, y, k, df, t + 1)|, if n == pn && z == pz then df else 0.0)
  {
    var v := if n == pn && z == pz then df else 0.0;
    var sel := PlaneCells(inGdims, pn, pz);
    var rest := WindowStream(inGdims, n, z, x, y, k, df, t);
    var last := TapStream(inGdims, n, z, x, y, k, df, t);
    var all := WindowStream(inGdims, n, z, x, y, k, df, t + 1);
    assert all == rest + last;
    TapStreamPlane(inGdims, n, z, x, y, k, df, t, pn, pz);
    SelectAppend(rest, last, sel);
    ScaledAdd(|rest|, |last|, v);
    assert SelectSum(all, sel) == Scaled(|all|, v);
  }

  /** When every window lies inside the input, output cell `o` adds its whole
      gradient to its own plane of the input and nothing to any other. */
  lemma CellStreamPlane(outG: seq<real>, inGdims: seq<nat>, outWdims: seq<nat>,
                        k: nat, stride: nat, pad: nat, o: nat, pn: nat, pz: nat)
    requires |inGdims| == 4 && |outWdims| == 4 && |outG| == Volume(outWdims) && k > 0
    requires outWdims[0] <= inGdims[0] && outWdims[3] <= inGdims[3]
    requires Interior(inGdims[1], outWdims[1], k, stride, pad)
    requires Interior(inGdims[2], outWdims[2], k, stride, pad)
    requires o < |outG|
    ensures SelectSum(CellStream(outG, inGdims, outWdims, k, stride, pad, o), PlaneCells(inGdims, pn, pz))
         == if PlaneCells(outWdims, pn, pz)[o] then outG[o] else 0.0
  {
    var c := Unravel(outWdims, o);
    var wx, wy := Origin(c[1], stride, pad), Origin(c[2], stride, pad);
    var df := outG[o] / Area(k) as real;
    assert CellStream(outG, inGdims, outWdims, k, stride, pad, o)
        == WindowStream(inGdims, c[0], c[3], wx, wy, k, df, Area(k));
    InteriorWindow(inGdims[1], outWdims[1], k, stride, pad, c[1]);
    InteriorWindow(inGdims[2], outWdims[2], k, stride, pad, c[2]);
    WindowStreamLength(inGdims, c[0], c[3], wx, wy, k, df, Area(k));
    WindowStreamPlane(inGdims, c[0], c[3], wx, wy, k, df, Area(k), pn, pz);
    if c[0] == pn && c[3] == pz {
      SharesAddUp(k, outG[o]);
    } else {
      ScaledZero(Area(k));
    }
  }

  /** One more output cell adds its gradient to the plane when it lies in it. */
  lemma AvgGradPlaneStep(outG: seq<real>, inGdims: seq<nat>, outWdims: seq<nat>,
                         k: nat, stride: nat, pad: nat, o: nat, pn: nat, pz: nat)
    requires |inGdims| == 4 && |outWdims| == 4 && |outG| == Volume(outWdims) && k > 0
    requires outWdims[0] <= inGdims[0] && outWdims[3] <= inGdims[3]
    requires Interior(inGdims[1], outWdims[1], k, stride, pad)
    requires Interior(inGdims[2], outWdims[2], k, stride, pad)
    requires o < |outG|
    requires SelectSum(AvgGradStream(outG, inGdims, outWdims, k, stride, pad, o), PlaneCells(inGdims, pn, pz))
          == PlanePrefix(outG, outWdims, pn, pz, o)
    ensures SelectSum(AvgGradStream(outG, inGdims, outWdims, k, stride, pad, o + 1), PlaneCells(inGdims, pn, pz))
         == PlanePrefix(outG, outWdims, pn, pz, o + 1)
  {
    var rest := AvgGradStream(outG, inGdims, outWdims, k, stride, pad, o);
    var last := CellStream(outG, inGdims, outWdims, k, stride, pad, o);
    CellStreamPlane(outG, inGdims, outWdims, k, stride, pad, o, pn, pz);
    SelectAppend(rest, last, PlaneCells(inGdims, pn, pz));
  }

  /** The first `m` output cells add to input plane (pn, pz) exactly the
      first `m` output gradients that lie in plane (pn, pz). */
  lemma {:induction false} AvgGradSelectPlane(outG: seq<real>, inGdims: seq<nat>, outWdims: seq<nat>,
                                              k: nat, stride: nat, pad: nat, m: nat, pn: nat, pz: nat)
    requires |inGdims| == 4 && |outWdims| == 4 && |outG| == Volume(outWdims) && k > 0
    requires outWdims[0] <= inGdims[0] && outWdims[3] <= inGdims[3]
    requires Interior(inGdims[1], outWdims[1], k, stride, pad)
    requires Interior(inGdims[2], outWdims[2], k, stride, pad)
    requires m <= |outG|
    ensures SelectSum(AvgGradStream(outG, inGdims, outWdims, k, stride, pad, m), PlaneCells(inGdims, pn, pz))
         == PlanePrefix(outG, outWdims, pn, pz, m)
    decreases m
  {
    if m > 0 {
      AvgGradSelectPlane(outG, inGdims, outWdims, k, stride, pad, m - 1, pn, pz);
      AvgGradPlaneStep(outG, inGdims, outWdims, k, stride, pad, m - 1, pn, pz);
    }
  }

  /** Plane by plane, when every window lies inside the input, the input
      gradient of a plane the output covers sums to the output gradient's
      sum over that plane. */
  lemma PoolAvgGradPlane(inG: seq<real>, outG: seq<real>, inGdims: seq<nat>, outWdims: seq<nat>,
                         k: nat, stride: nat, pad: nat, n: nat, z: nat)
    requires |inGdims| == 4 && |outWdims| == 4 && |outG| == Volume(outWdims) && k > 0
    requires outWdims[0] <= inGdims[0] && outWdims[3] <= inGdims[3] && |inG| == Volume(inGdims)
    requires Interior(inGdims[1], outWdims[1], k, stride, pad)
    requires Interior(inGdims[2], outWdims[2], k, stride, pad)
    requires n < outWdims[0] && z < outWdims[3]
    ensures PlaneSum(PoolAvgGrad(inG, outG, inGdims, outWdims, k, stride, pad), inGdims, n, z)
         == PlaneSum(outG, outWdims, n, z)
  {
    var cleared := ClearPlanes(inG, inGdims, outWdims[0], outWdims[3]);
    var cs := AvgGradStream(outG, inGdims, outWdims, k, stride, pad, |outG|);
    var mask := PlaneMask(inGdims, n, z);
    forall i | 0 <= i < |cleared|
      ensures cleared[i] == 0.0 || mask[i] == 0.0
    {
    }
    InnerDisjoint(cleared, mask);
    ScatterDot(cleared, cs, mask);
    SelectIsDot(cs, PlaneCells(inGdims, n, z), mask);
    AvgGradSelectPlane(outG, inGdims, outWdims, k, stride, pad, |outG|, n, z);
    PlanePrefixIsInner(outG, outWdims, n, z, |outG|);
    assert outG[..|outG|] == outG;
    assert PlaneMask(outWdims, n, z)[..|outG|] == PlaneMask(outWdims, n, z);
  }

  /** When every window lies inside the input and the output covers every
      batch and channel, the input gradient sums to the output gradient's sum. */
  lemma PoolAvgGradConserves(inG: seq<real>, outG: seq<real>, inGdims: seq<nat>, outWdims: seq<nat>,
                             k: nat, stride: nat, pad: nat)
    requires |inGdims| == 4 && |outWdims| == 4 && |outG| == Volume(outWdims) && k > 0
    requires outWdims[0] == inGdims[0] && outWdims[3] == inGdims[3] && |inG| == Volume(inGdims)
    requires Interior(inGdims[1], outWdims[1], k, stride, pad)
    requires Interior(inGdims[2], outWdims[2], k, stride, pad)
    ensures Sum(PoolAvgGrad(inG, outG, inGdims, outWdims, k, stride, pad)) == Sum(outG)
  {
    ClearedSumsToZero(inG, inGdims);
    AvgGradStreamSum(outG, inGdims, outWdims, k, stride, pad);
    ScatterTotal(ClearPlanes(inG, inGdims, inGdims[0], inGdims[3]),
                 AvgGradStream(outG, inGdims, outWdims, k, stride, pad, |outG|));
  }
}
