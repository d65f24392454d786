/** Convolution (NHWC): libjit_convolution_f, libjit_convolution_f_unroll_k4
    and libjit_convolution_grad_f.

    Output cell (n, ax, ay, d) looks at the k-by-k window whose top-left
    corner is (ax * stride - pad, ay * stride - pad), as the pooling kernels
    do.  Each in-bounds tap (fx, fy) contributes, for every input channel fd,
    filter[d, fx, fy, fd] * in[n, ox, oy, fd]; a tap outside the input is
    skipped, which is how padding is realised.  The bias of channel d is
    added after the window.
 */
module Convolution {
  import opened Index
  import opened Sums
  import opened Pooling
  import opened ConvOperands

  /** Tap (fx, fy) read at input position (ox, oy): the products of the
      first `m` input channels. */
  function ChannelDot(a: ConvArgs, n: nat, d: nat, ox: nat, oy: nat, fx: nat, fy: nat, m: nat): real
    requires Aim(a, n, d)
    requires ox < a.inWdims[1] && oy < a.inWdims[2] && fx < a.k && fy < a.k
    requires m <= a.inWdims[3]
    decreases m
  {
    if m == 0 then 0.0
    else ChannelDot(a, n, d, ox, oy, fx, fy, m - 1)
         + a.filterW[GetXYZW(a.filterWdims, d, fx, fy, m - 1)] * a.inW[GetXYZW(a.inWdims, n, ox, oy, m - 1)]
  }

  /** One more channel adds the filter weight `w` times the input value `v`. */
  lemma ChannelDotStep(a: ConvArgs, n: nat, d: nat, ox: nat, oy: nat, fx: nat, fy: nat, m: nat,
                       w: real, v: real)
    requires Aim(a, n, d)
    requires ox < a.inWdims[1] && oy < a.inWdims[2] && fx < a.k && fy < a.k
    requires 0 < m <= a.inWdims[3]
    requires GetXYZW(a.filterWdims, d, fx, fy, m - 1) < |a.filterW|
    requires a.filterW[GetXYZW(a.filterWdims, d, fx, fy, m - 1)] == w
    requires GetXYZW(a.inWdims, n, ox, oy, m - 1) < |a.inW|
    requires a.inW[GetXYZW(a.inWdims, n, ox, oy, m - 1)] == v
    ensures ChannelDot(a, n, d, ox, oy, fx, fy, m) == ChannelDot(a, n, d, ox, oy, fx, fy, m - 1) + w * v
  {
  }

  /** What tap (fx, fy) of the window at (x, y) adds: its channel products,
      or nothing when it falls outside the input. */
  function TapDot(a: ConvArgs, n: nat, d: nat, x: int, y: int, fx: nat, fy: nat): real
    requires Aim(a, n, d) && fx < a.k && fy < a.k
  {
    if TapIn(a.inWdims, x + fx, y + fy) then
      ChannelDot(a, n, d, (x + fx) as nat, (y + fy) as nat, fx, fy, a.inWdims[3])
    else 0.0
  }

  /** Taps (fx, 0) .. (fx, m - 1): the inner `fy` loop. */
  function RowDot(a: ConvArgs, n: nat, d: nat, x: int, y: int, fx: nat, m: nat): real
    requires Aim(a, n, d) && fx < a.k && m <= a.k
    decreases m
  {
    if m == 0 then 0.0 else RowDot(a, n, d, x, y, fx, m - 1) + TapDot(a, n, d, x, y, fx, m - 1)
  }

  /** Rows 0 .. m - 1 of the window: the outer `fx` loop. */
  function WindowDot(a: ConvArgs, n: nat, d: nat, x: int, y: int, m: nat): real
    requires Aim(a, n, d) && m <= a.k
    decreases m
  {
    if m == 0 then 0.0 else WindowDot(a, n, d, x, y, m - 1) + RowDot(a, n, d, x, y, m - 1, a.k)
  }

  /** Extents libjit_convolution_f needs: every batch it visits exists in the
      output and every output channel has a bias. */
  predicate ForwardShapes(a: ConvArgs, outW: seq<real>)
  {
    && Operands(a)
    && a.inWdims[0] <= a.outWdims[0] && a.outWdims[3] <= |a.biasW|
    && |outW| == Volume(a.outWdims)
  }

  /** The value libjit_convolution_f stores for output cell (n, ax, ay, d). */
  function ConvCell(a: ConvArgs, n: nat, ax: nat, ay: nat, d: nat): real
    requires Operands(a) && n < a.inWdims[0] && d < a.outWdims[3] && a.outWdims[3] <= |a.biasW|
  {
    WindowDot(a, n, d, Origin(ax, a.stride, a.pad), Origin(ay, a.stride, a.pad), a.k) + a.biasW[d]
  }

  /** libjit_convolution_f: the batches of the input are convolved; output
      cells of any further batch keep their value. */
  function Convolution(a: ConvArgs, outW: seq<real>): (r: seq<real>)
    requires ForwardShapes(a, outW)
    ensures |r| == |outW|
  {
    seq(|outW|, o requires 0 <= o < |outW| =>
      var c := Unravel(a.outWdims, o);
      if c[0] < a.inWdims[0] then ConvCell(a, c[0], c[1], c[2], c[3]) else outW[o])
  }

  /** Output cell (n, ax, ay, d) holds the window's products plus the bias. */
  lemma ConvolutionCell(a: ConvArgs, outW: seq<real>, n: nat, ax: nat, ay: nat, d: nat)
    requires ForwardShapes(a, outW)
    requires n < a.outWdims[0] && ax < a.outWdims[1] && ay < a.outWdims[2] && d < a.outWdims[3]
    ensures GetXYZW(a.outWdims, n, ax, ay, d) < |outW|
    ensures Convolution(a, outW)[GetXYZW(a.outWdims, n, ax, ay, d)]
         == if n < a.inWdims[0] then ConvCell(a, n, ax, ay, d) else outW[GetXYZW(a.outWdims, n, ax, ay, d)]
  {
    UnravelXYZW(a.outWdims, n, ax, ay, d);
  }

  // ---------------------------------------------------------------------------
  // Padding by skipping is zero padding

  /** Extents of the input with `pad` zero rows and columns on each side. */
  function PaddedDims(dims: seq<nat>, pad: nat): (p: seq<nat>)
    requires |dims| == 4
    ensures |p| == 4
  {
    [dims[0], dims[1] + 2 * pad, dims[2] + 2 * pad, dims[3]]
  }

  /** Element c = (n, x, y, z) of the input surrounded by `pad` zeros along
      H and W: the input element (n, x - pad, y - pad, z), or 0. */
  function PaddedAt(inW: seq<real>, inWdims: seq<nat>, pad: nat, c: seq<nat>): real
    requires |inWdims| == 4 && |inW| == Volume(inWdims) && |c| == 4
    requires c[0] < inWdims[0] && c[3] < inWdims[3]
  {
    if pad <= c[1] < pad + inWdims[1] && pad <= c[2] < pad + inWdims[2]
    then inW[GetXYZW(inWdims, c[0], c[1] - pad, c[2] - pad, c[3])]
    else 0.0
  }

  /** The zero-padded input as a buffer of extents PaddedDims(inWdims, pad). */
  function PadInput(inW: seq<real>, inWdims: seq<nat>, pad: nat): (r: seq<real>)
    requires |inWdims| == 4 && |inW| == Volume(inWdims)
    ensures |r| == Volume(PaddedDims(inWdims, pad))
  {
    var p := PaddedDims(inWdims, pad);
    seq(Volume(p), i requires 0 <= i < Volume(p) => PaddedAt(inW, inWdims, pad, Unravel(p, i)))
  }

  /** The padded buffer holds, at each of its coordinates, what the padded
      convolution below reads there. */
  lemma PadInputCell(inW: seq<real>, inWdims: seq<nat>, pad: nat, n: nat, x: nat, y: nat, z: nat)
    requires |inWdims| == 4 && |inW| == Volume(inWdims)
    requires n < inWdims[0] && x < inWdims[1] + 2 * pad && y < inWdims[2] + 2 * pad && z < inWdims[3]
    ensures GetXYZW(PaddedDims(inWdims, pad), n, x, y, z) < Volume(PaddedDims(inWdims, pad))
    ensures PadInput(inW, inWdims, pad)[GetXYZW(PaddedDims(inWdims, pad), n, x, y, z)]
         == PaddedAt(inW, inWdims, pad, [n, x, y, z])
  {
    UnravelXYZW(PaddedDims(inWdims, pad), n, x, y, z);
  }

  /** Shifted by `pad`, the padded input holds the input. */
  lemma PaddedInside(inW: seq<real>, inWdims: seq<nat>, pad: nat, n: nat, x: nat, y: nat, z: nat)
    requires |inWdims| == 4 && |inW| == Volume(inWdims)
    requires n < inWdims[0] && x < inWdims[1] && y < inWdims[2] && z < inWdims[3]
    ensures GetXYZW(inWdims, n, x, y, z) < |inW|
    ensures PaddedAt(inW, inWdims, pad, [n, x + pad, y + pad, z]) == inW[GetXYZW(inWdims, n, x, y, z)]
  {
  }

  /** Outside the shifted input, the padded input holds zeros. */
  lemma PaddedBorder(inW: seq<real>, inWdims: seq<nat>, pad: nat, n: nat, x: nat, y: nat, z: nat)
    requires |inWdims| == 4 && |inW| == Volume(inWdims)
    requires n < inWdims[0] && z < inWdims[3]
    requires !(pad <= x < pad + inWdims[1] && pad <= y < pad + inWdims[2])
    ensures PaddedAt(inW, inWdims, pad, [n, x, y, z]) == 0.0
  {
  }

  /** ChannelDot read from the zero-padded input at padded position (px, py). */
  function PaddedChannelDot(a: ConvArgs, n: nat, d: nat, px: nat, py: nat, fx: nat, fy: nat, m: nat): real
    requires Aim(a, n, d) && fx < a.k && fy < a.k
    requires m <= a.inWdims[3]
    decreases m
  {
    if m == 0 then 0.0
    else PaddedChannelDot(a, n, d, px, py, fx, fy, m - 1)
         + a.filterW[GetXYZW(a.filterWdims, d, fx, fy, m - 1)] * PaddedAt(a.inW, a.inWdims, a.pad, [n, px, py, m - 1])
  }

  lemma PaddedChannelDotStep(a: ConvArgs, n: nat, d: nat, px: nat, py: nat, fx: nat, fy: nat, m: nat,
                             w: real, v: real)
    requires Aim(a, n, d) && fx < a.k && fy < a.k
    requires 0 < m <= a.inWdims[3]
    requires GetXYZW(a.filterWdims, d, fx, fy, m - 1) < |a.filterW|
    requires a.filterW[GetXYZW(a.filterWdims, d, fx, fy, m - 1)] == w
    requires PaddedAt(a.inW, a.inWdims, a.pad, [n, px, py, m - 1]) == v
    ensures PaddedChannelDot(a, n, d, px, py, fx, fy, m)
         == PaddedChannelDot(a, n, d, px, py, fx, fy, m - 1) + w * v
  {
  }

  /** Inside the shifted input, the padded channel products are the input's. */
  lemma {:induction false} PaddedChannelDotInside(a: ConvArgs, n: nat, d: nat, ox: nat, oy: nat,
                                                  fx: nat, fy: nat, m: nat)
    requires Aim(a, n, d)
    requires ox < a.inWdims[1] && oy < a.inWdims[2] && fx < a.k && fy < a.k
    requires m <= a.inWdims[3]
    ensures PaddedChannelDot(a, n, d, ox + a.pad, oy + a.pad, fx, fy, m) == ChannelDot(a, n, d, ox, oy, fx, fy, m)
    decreases m
  {
    if m > 0 {
      PaddedChannelDotInside(a, n, d, ox, oy, fx, fy, m - 1);
      PaddedInside(a.inW, a.inWdims, a.pad, n, ox, oy, m - 1);
      var w := a.filterW[GetXYZW(a.filterWdims, d, fx, fy, m - 1)];
      var v := a.inW[GetXYZW(a.inWdims, n, ox, oy, m - 1)];
      ChannelDotStep(a, n, d, ox, oy, fx, fy, m, w, v);
      PaddedChannelDotStep(a, n, d, ox + a.pad, oy + a.pad, fx, fy, m, w, v);
    }
  }

  /** In the zero border, the padded channel products vanish. */
  lemma {:induction false} PaddedChannelDotBorder(a: ConvArgs, n: nat, d: nat, px: nat, py: nat,
                                                  fx: nat, fy: nat, m: nat)
    requires Aim(a, n, d) && fx < a.k && fy < a.k
    requires !(a.pad <= px < a.pad + a.inWdims[1] && a.pad <= py < a.pad + a.inWdims[2])
    requires m <= a.inWdims[3]
    ensures PaddedChannelDot(a, n, d, px, py, fx, fy, m) == 0.0
    decreases m
  {
    if m > 0 {
      PaddedChannelDotBorder(a, n, d, px, py, fx, fy, m - 1);
      PaddedBorder(a.inW, a.inWdims, a.pad, n, px, py, m - 1);
      PaddedChannelDotStep(a, n, d, px, py, fx, fy, m, a.filterW[GetXYZW(a.filterWdims, d, fx, fy, m - 1)], 0.0);
    }
  }

  /** What tap (fx, fy) of the window at padded position (x, y) adds: taps
      beyond the padded extents are still skipped. */
  function PaddedTapDot(a: ConvArgs, n: nat, d: nat, x: int, y: int, fx: nat, fy: nat): real
    requires Aim(a, n, d) && fx < a.k && fy < a.k
  {
    if TapIn(PaddedDims(a.inWdims, a.pad), x + fx, y + fy) then
      PaddedChannelDot(a, n, d, (x + fx) as nat, (y + fy) as nat, fx, fy, a.inWdims[3])
    else 0.0
  }

  function PaddedRowDot(a: ConvArgs, n: nat, d: nat, x: int, y: int, fx: nat, m: nat): real
    requires Aim(a, n, d) && fx < a.k && m <= a.k
    decreases m
  {
    if m == 0 then 0.0 else PaddedRowDot(a, n, d, x, y, fx, m - 1) + PaddedTapDot(a, n, d, x, y, fx, m - 1)
  }

  function PaddedWindowDot(a: ConvArgs, n: nat, d: nat, x: int, y: int, m: nat): real
    requires Aim(a, n, d) && m <= a.k
    decreases m
  {
    if m == 0 then 0.0 else PaddedWindowDot(a, n, d, x, y, m - 1) + PaddedRowDot(a, n, d, x, y, m - 1, a.k)
  }

  /** The convolution of the zero-padded input with no padding: the window of
      output position (ax, ay) starts at (ax * stride, ay * stride). */
  function PaddedConvolution(a: ConvArgs, outW: seq<real>): (r: seq<real>)
    requires ForwardShapes(a, outW)
    ensures |r| == |outW|
  {
    seq(|outW|, o requires 0 <= o < |outW| =>
      var c := Unravel(a.outWdims, o);
      if c[0] < a.inWdims[0] then
        PaddedWindowDot(a, c[0], c[3], Mul(c[1], a.stride), Mul(c[2], a.stride), a.k) + a.biasW[c[3]]
      else outW[o])
  }

  /** Every tap adds the same as its shifted tap on the padded input. */
  lemma TapDotPadded(a: ConvArgs, n: nat, d: nat, x: int, y: int, fx: nat, fy: nat)
    requires Aim(a, n, d) && fx < a.k && fy < a.k
    ensures PaddedTapDot(a, n, d, x + a.pad, y + a.pad, fx, fy) == TapDot(a, n, d, x, y, fx, fy)
  {
    if TapIn(a.inWdims, x + fx, y + fy) {
      PaddedChannelDotInside(a, n, d, (x + fx) as nat, (y + fy) as nat, fx, fy, a.inWdims[3]);
    } else if TapIn(PaddedDims(a.inWdims, a.pad), x + a.pad + fx, y + a.pad + fy) {
      PaddedChannelDotBorder(a, n, d, (x + a.pad + fx) as nat, (y + a.pad + fy) as nat, fx, fy, a.inWdims[3]);
    }
  }

  lemma {:induction false} RowDotPadded(a: ConvArgs, n: nat, d: nat, x: int, y: int, fx: nat, m: nat)
    requires Aim(a, n, d) && fx < a.k && m <= a.k
    ensures PaddedRowDot(a, n, d, x + a.pad, y + a.pad, fx, m) == RowDot(a, n, d, x, y, fx, m)
    decreases m
  {
    if m > 0 {
      RowDotPadded(a, n, d, x, y, fx, m - 1);
      TapDotPadded(a, n, d, x, y, fx, m - 1);
    }
  }

  lemma {:induction false} WindowDotPadded(a: ConvArgs, n: nat, d: nat, x: int, y: int, m: nat)
    requires Aim(a, n, d) && m <= a.k
    ensures PaddedWindowDot(a, n, d, x + a.pad, y + a.pad, m) == WindowDot(a, n, d, x, y, m)
    decreases m
  {
    if m > 0 {
      WindowDotPadded(a, n, d, x, y, m - 1);
      RowDotPadded(a, n, d, x, y, m - 1, a.k);
    }
  }

  /** Output element `o` of the two convolutions agrees. */
  lemma ZeroPaddingCell(a: ConvArgs, outW: seq<real>, o: nat)
    requires ForwardShapes(a, outW) && o < |outW|
    ensures PaddedConvolution(a, outW)[o] == Convolution(a, outW)[o]
  {
    var c := Unravel(a.outWdims, o);
    if c[0] < a.inWdims[0] {
      WindowDotPadded(a, c[0], c[3], Origin(c[1], a.stride, a.pad), Origin(c[2], a.stride, a.pad), a.k);
    }
  }

  /** Skipping the taps that fall outside the input computes the same buffer
      as convolving the zero-padded input with no padding.  The padded
      convolution reads the padded input through PaddedAt, which is, cell for
      cell, the buffer PadInput builds (PadInputCell). */
  lemma SkippingIsZeroPadding(a: ConvArgs, outW: seq<real>)
    requires ForwardShapes(a, outW)
    ensures PaddedConvolution(a, outW) == Convolution(a, outW)
  {
    forall o | 0 <= o < |outW|
      ensures PaddedConvolution(a, outW)[o] == Convolution(a, outW)[o]
    {
      ZeroPaddingCell(a, outW, o);
    }
  }

  // ---------------------------------------------------------------------------
  // Unrolled by four output channels

  /** The four running sums sum0 .. sum3 of libjit_convolution_f_unroll_k4,
      which serve output channels d + 0 .. d + 3 at once. */
  datatype Lanes = Lanes(s0: real, s1: real, s2: real, s3: real)
  {
    /** The running sum of channel d + j. */
    function Lane(j: nat): real
      requires j < 4
    {
      if j == 0 then s0 else if j == 1 then s1 else if j == 2 then s2 else s3
    }

    /** Each running sum raised by its own addend. */
    function Plus(b: Lanes): (r: Lanes)
      ensures forall j :: 0 <= j < 4 ==> r.Lane(j) == Lane(j) + b.Lane(j)
    {
      Lanes(s0 + b.s0, s1 + b.s1, s2 + b.s2, s3 + b.s3)
    }
  }

  /** The block of channels d .. d + 3 is served by the filter. */
  predicate BlockIn(a: ConvArgs, d: nat)
  {
    Operands(a) && d + 3 < a.filterWdims[0]
  }

  /** Tap (fx, fy) of the unrolled kernel: four channel loops, one per lane,
      each reading the same input values; nothing for a tap outside the input. */
  function TapLanes(a: ConvArgs, n: nat, d: nat, x: int, y: int, fx: nat, fy: nat): Lanes
    requires BlockIn(a, d) && n < a.inWdims[0] && fx < a.k && fy < a.k
  {
    if TapIn(a.inWdims, x + fx, y + fy) then
      var ox, oy := (x + fx) as nat, (y + fy) as nat;
      Lanes(ChannelDot(a, n, d + 0, ox, oy, fx, fy, a.inWdims[3]),
            ChannelDot(a, n, d + 1, ox, oy, fx, fy, a.inWdims[3]),
            ChannelDot(a, n, d + 2, ox, oy, fx, fy, a.inWdims[3]),
            ChannelDot(a, n, d + 3, ox, oy, fx, fy, a.inWdims[3]))
    else Lanes(0.0, 0.0, 0.0, 0.0)
  }

  function RowLanes(a: ConvArgs, n: nat, d: nat, x: int, y: int, fx: nat, m: nat): Lanes
    requires BlockIn(a, d) && n < a.inWdims[0] && fx < a.k && m <= a.k
    decreases m
  {
    if m == 0 then Lanes(0.0, 0.0, 0.0, 0.0)
    else RowLanes(a, n, d, x, y, fx, m - 1).Plus(TapLanes(a, n, d, x, y, fx, m - 1))
  }

  function WindowLanes(a: ConvArgs, n: nat, d: nat, x: int, y: int, m: nat): Lanes
    requires BlockIn(a, d) && n < a.inWdims[0] && m <= a.k
    decreases m
  {
    if m == 0 then Lanes(0.0, 0.0, 0.0, 0.0)
    else WindowLanes(a, n, d, x, y, m - 1).Plus(RowLanes(a, n, d, x, y, m - 1, a.k))
  }

  /** The four values the unrolled kernel stores at (n, ax, ay, d + 0 .. d + 3):
      the window's lanes, each raised by its channel's bias. */
  function UnrolledBlock(a: ConvArgs, n: nat, ax: nat, ay: nat, d: nat): Lanes
    requires BlockIn(a, d) && n < a.inWdims[0] && d + 3 < |a.biasW|
  {
    var x, y := Origin(ax, a.stride, a.pad), Origin(ay, a.stride, a.pad);
    WindowLanes(a, n, d, x, y, a.k).Plus(Lanes(a.biasW[d], a.biasW[d + 1], a.biasW[d + 2], a.biasW[d + 3]))
  }

  /** Channel `c` of a depth that is a multiple of four lies in a full block. */
  lemma BlockFits(c: nat, depth: nat)
    requires depth % 4 == 0 && c < depth
    ensures c % 4 <= c && c - c % 4 + 3 < depth
  {
  }

  /** libjit_convolution_f_unroll_k4, for an output depth that is a multiple
      of four: output channel c is lane c % 4 of the block starting at
      c - c % 4. */
  function ConvolutionUnrolled(a: ConvArgs, outW: seq<real>): (r: seq<real>)
    requires ForwardShapes(a, outW) && a.outWdims[3] % 4 == 0
    ensures |r| == |outW|
  {
    seq(|outW|, o requires 0 <= o < |outW| =>
      var c := Unravel(a.outWdims, o);
      BlockFits(c[3], a.outWdims[3]);
      if c[0] < a.inWdims[0] then UnrolledBlock(a, c[0], c[1], c[2], c[3] - c[3] % 4).Lane(c[3] % 4)
      else outW[o])
  }

  /** Lane j of a tap is the tap of channel d + j. */
  lemma TapLanesLane(a: ConvArgs, n: nat, d: nat, x: int, y: int, fx: nat, fy: nat, j: nat)
    requires BlockIn(a, d) && n < a.inWdims[0] && fx < a.k && fy < a.k && j < 4
    ensures TapLanes(a, n, d, x, y, fx, fy).Lane(j) == TapDot(a, n, d + j, x, y, fx, fy)
  {
  }

  lemma {:induction false} RowLanesLane(a: ConvArgs, n: nat, d: nat, x: int, y: int, fx: nat, m: nat, j: nat)
    requires BlockIn(a, d) && n < a.inWdims[0] && fx < a.k && m <= a.k && j < 4
    ensures RowLanes(a, n, d, x, y, fx, m).Lane(j) == RowDot(a, n, d + j, x, y, fx, m)
    decreases m
  {
    if m > 0 {
      RowLanesLane(a, n, d, x, y, fx, m - 1, j);
      TapLanesLane(a, n, d, x, y, fx, m - 1, j);
    }
  }

  lemma {:induction false} WindowLanesLane(a: ConvArgs, n: nat, d: nat, x: int, y: int, m: nat, j: nat)
    requires BlockIn(a, d) && n < a.inWdims[0] && m <= a.k && j < 4
    ensures WindowLanes(a, n, d, x, y, m).Lane(j) == WindowDot(a, n, d + j, x, y, m)
    decreases m
  {
    if m > 0 {
      WindowLanesLane(a, n, d, x, y, m - 1, j);
      RowLanesLane(a, n, d, x, y, m - 1, a.k, j);
    }
  }

  /** Lane j of an unrolled block is the cell libjit_convolution_f stores
      for channel d + j. */
  lemma UnrolledBlockLane(a: ConvArgs, n: nat, ax: nat, ay: nat, d: nat, j: nat)
    requires BlockIn(a, d) && n < a.inWdims[0] && j < 4
    requires d + 3 < a.outWdims[3] <= |a.biasW|
    ensures UnrolledBlock(a, n, ax, ay, d).Lane(j) == ConvCell(a, n, ax, ay, d + j)
  {
    WindowLanesLane(a, n, d, Origin(ax, a.stride, a.pad), Origin(ay, a.stride, a.pad), a.k, j);
  }

  /** Output element `o` of the two kernels agrees. */
  lemma UnrolledCell(a: ConvArgs, outW: seq<real>, o: nat)
    requires ForwardShapes(a, outW) && a.outWdims[3] % 4 == 0 && o < |outW|
    ensures ConvolutionUnrolled(a, outW)[o] == Convolution(a, outW)[o]
  {
    var c := Unravel(a.outWdims, o);
    BlockFits(c[3], a.outWdims[3]);
    if c[0] < a.inWdims[0] {
      UnrolledBlockLane(a, c[0], c[1], c[2], c[3] - c[3] % 4, c[3] % 4);
    }
  }

  /** With exact arithmetic the unrolled kernel computes the same buffer as
      libjit_convolution_f. */
  lemma UnrolledAgrees(a: ConvArgs, outW: seq<real>)
    requires ForwardShapes(a, outW) && a.outWdims[3] % 4 == 0
    ensures ConvolutionUnrolled(a, outW) == Convolution(a, outW)
  {
    forall o | 0 <= o < |outW|
      ensures ConvolutionUnrolled(a, outW)[o] == Convolution(a, outW)[o]
    {
      UnrolledCell(a, outW, o);
    }
  }

  // ---------------------------------------------------------------------------
  // The linear part of the forward convolution

  /** Every output cell's window products without the bias: the map from
      input (or filter) to output that the gradient kernel differentiates. */
  function Filtered(a: ConvArgs): (r: seq<real>)
    requires Operands(a) && a.outWdims[0] <= a.inWdims[0]
    ensures |r| == Volume(a.outWdims)
  {
    seq(Volume(a.outWdims), o requires 0 <= o < Volume(a.outWdims) =>
      var c := Unravel(a.outWdims, o);
      WindowDot(a, c[0], c[3], Origin(c[1], a.stride, a.pad), Origin(c[2], a.stride, a.pad), a.k))
  }

  /** When every output batch has an input batch, each forward output cell is
      its window products plus the bias of its channel. */
  lemma ConvolutionIsFilteredPlusBias(a: ConvArgs, outW: seq<real>, o: nat)
    requires ForwardShapes(a, outW) && a.outWdims[0] <= a.inWdims[0] && o < |outW|
    ensures Unravel(a.outWdims, o)[3] < |a.biasW|
    ensures Convolution(a, outW)[o] == Filtered(a)[o] + a.biasW[Unravel(a.outWdims, o)[3]]
  {
  }

  // ---------------------------------------------------------------------------
  // Gradient

  /** The two buffers the inner channel loop of libjit_convolution_grad_f
      accumulates into. */

  /** Extents libjit_convolution_grad_f needs.  `a.outWdims` plays outGdims
      and `a.filterWdims` plays filterGdims, which the clearing `memset`
      takes to be (outGdims[3], kernel, kernel, inWdims[3]); the bias
      buffer of `a` is not read. */
  predicate GradShapes(a: ConvArgs, outG: seq<real>)
  {
    && Operands(a)
    && a.outWdims[0] <= a.inWdims[0]
    && a.filterWdims == [a.outWdims[3], a.k, a.k, a.inWdims[3]]
    && |outG| == Volume(a.outWdims)
  }

  /** What input channel c of tap (fx, fy), read at input position
      (ox, oy), aims at the buffer `t`, per unit of output gradient:
      filterW[d, fx, fy, c] at inG[n, ox, oy, c], or inW[n, ox, oy, c] at
      filterG[d, fx, fy, c]. */
  function GradEntry(a: ConvArgs, t: GradTarget, n: nat, d: nat, ox: nat, oy: nat,
                     fx: nat, fy: nat, c: nat): (e: Contribution)
    requires Aim(a, n, d)
    requires ox < a.inWdims[1] && oy < a.inWdims[2] && fx < a.k && fy < a.k
    requires c < a.inWdims[3]
    ensures e.cell < GradSize(a, t)
  {
    var i := GetXYZW(a.inWdims, n, ox, oy, c);
    var f := GetXYZW(a.filterWdims, d, fx, fy, c);
    if t == InputGrad then Contribution(i, a.filterW[f]) else Contribution(f, a.inW[i])
  }

  /** The channel loop at tap (fx, fy): channels 0 .. m - 1 in order. */
  function ChannelGrad(a: ConvArgs, t: GradTarget, n: nat, d: nat, ox: nat, oy: nat,
                       fx: nat, fy: nat, m: nat): (cs: seq<Contribution>)
    requires Aim(a, n, d)
    requires ox < a.inWdims[1] && oy < a.inWdims[2] && fx < a.k && fy < a.k
    requires m <= a.inWdims[3]
    ensures |cs| == m && Targets(cs, GradSize(a, t))
    decreases m
  {
    if m == 0 then []
    else
      var e := GradEntry(a, t, n, d, ox, oy, fx, fy, m - 1);
      TargetsAppend(ChannelGrad(a, t, n, d, ox, oy, fx, fy, m - 1), [e], GradSize(a, t));
      ChannelGrad(a, t, n, d, ox, oy, fx, fy, m - 1) + [e]
  }

  function TapGrad(a: ConvArgs, t: GradTarget, n: nat, d: nat, x: int, y: int,
                   fx: nat, fy: nat): (cs: seq<Contribution>)
    requires Aim(a, n, d) && fx < a.k && fy < a.k
    ensures Targets(cs, GradSize(a, t))
  {
    if TapIn(a.inWdims, x + fx, y + fy) then
      ChannelGrad(a, t, n, d, (x + fx) as nat, (y + fy) as nat, fx, fy, a.inWdims[3])
    else []
  }

  function RowGrad(a: ConvArgs, t: GradTarget, n: nat, d: nat, x: int, y: int,
                   fx: nat, m: nat): (cs: seq<Contribution>)
    requires Aim(a, n, d) && fx < a.k && m <= a.k
    ensures Targets(cs, GradSize(a, t))
    decreases m
  {
    if m == 0 then []
    else
      TargetsAppend(RowGrad(a, t, n, d, x, y, fx, m - 1), TapGrad(a, t, n, d, x, y, fx, m - 1), GradSize(a, t));
      RowGrad(a, t, n, d, x, y, fx, m - 1) + TapGrad(a, t, n, d, x, y, fx, m - 1)
  }

  function WindowGrad(a: ConvArgs, t: GradTarget, n: nat, d: nat, x: int, y: int,
                      m: nat): (cs: seq<Contribution>)
    requires Aim(a, n, d) && m <= a.k
    ensures Targets(cs, GradSize(a, t))
    decreases m
  {
    if m == 0 then []
    else
      TargetsAppend(WindowGrad(a, t, n, d, x, y, m - 1), RowGrad(a, t, n, d, x, y, m - 1, a.k), GradSize(a, t));
      WindowGrad(a, t, n, d, x, y, m - 1) + RowGrad(a, t, n, d, x, y, m - 1, a.k)
  }

  /** The unit contributions of every output cell's window, cell by cell:
      what each cell feeds back per unit of its gradient. */
  function CellUnits(a: ConvArgs, t: GradTarget): (us: seq<seq<Contribution>>)
    requires Operands(a) && a.outWdims[0] <= a.inWdims[0] && a.outWdims[3] <= a.filterWdims[0]
    ensures |us| == Volume(a.outWdims)
    ensures forall o :: 0 <= o < |us| ==> Targets(us[o], GradSize(a, t))
  {
    seq(Volume(a.outWdims), o requires 0 <= o < Volume(a.outWdims) =>
      var c := Unravel(a.outWdims, o);
      WindowGrad(a, t, c[0], c[3], Origin(c[1], a.stride, a.pad), Origin(c[2], a.stride, a.pad), a.k))
  }

  /** Every output cell's window contributions, each scaled by the cell's
      gradient (the loop body's `filterW[...] * grad` and `inW[...] * grad`),
      cell after cell. */
  function GradStream(a: ConvArgs, t: GradTarget, outG: seq<real>): (cs: seq<Contribution>)
    requires GradShapes(a, outG)
    ensures Targets(cs, GradSize(a, t))
  {
    var us := CellUnits(a, t);
    BlocksTargets(us, outG, |outG|, GradSize(a, t));
    BlocksUpTo(us, outG, |outG|)
  }

  /** `biasG[d] += grad` once per output cell of channel d. */
  function BiasStream(a: ConvArgs, outG: seq<real>): (cs: seq<Contribution>)
    requires GradShapes(a, outG)
    ensures |cs| == |outG| && Targets(cs, a.outWdims[3])
  {
    seq(|outG|, o requires 0 <= o < |outG| => Contribution(Unravel(a.outWdims, o)[3], outG[o]))
  }

  /** The three gradient buffers libjit_convolution_grad_f writes. */
  datatype Grads = Grads(inG: seq<real>, filterG: seq<real>, biasG: seq<real>)

  /** libjit_convolution_grad_f: inG and filterG are cleared whole, the first
      outGdims[3] elements of biasG are cleared, then every output cell's
      gradient is scattered back. */
  function ConvolutionGrad(a: ConvArgs, outG: seq<real>, biasG: seq<real>): (r: Grads)
    requires GradShapes(a, outG) && a.outWdims[3] <= |biasG|
    ensures |r.inG| == |a.inW| && |r.filterG| == |a.filterW| && |r.biasG| == |biasG|
  {
    var depth := a.outWdims[3];
    Grads(ScatterAdd(Zeros(|a.inW|), GradStream(a, InputGrad, outG)),
          ScatterAdd(Zeros(|a.filterW|), GradStream(a, FilterGrad, outG)),
          ScatterAdd(Zeros(depth) + biasG[depth..], BiasStream(a, outG)))
  }

  // ---------------------------------------------------------------------------
  // The gradient is the adjoint of the forward products

  /** The weighted input-gradient entry of channel m - 1 is the forward
      product that channel adds. */
  lemma InputGradStep(a: ConvArgs, n: nat, d: nat, ox: nat, oy: nat, fx: nat, fy: nat, m: nat,
                      w: seq<real>, b: ConvArgs)
    requires GradFrame(a, InputGrad, w, b, n, d)
    requires ox < a.inWdims[1] && oy < a.inWdims[2] && fx < a.k && fy < a.k && 0 < m <= a.inWdims[3]
    ensures var e := GradEntry(a, InputGrad, n, d, ox, oy, fx, fy, m - 1);
      ChannelDot(b, n, d, ox, oy, fx, fy, m) == ChannelDot(b, n, d, ox, oy, fx, fy, m - 1) + e.value * w[e.cell]
  {
    var e := GradEntry(a, InputGrad, n, d, ox, oy, fx, fy, m - 1);
    ChannelDotStep(b, n, d, ox, oy, fx, fy, m, e.value, w[e.cell]);
  }

  /** The weighted filter-gradient entry of channel m - 1 is the forward
      product that channel adds. */
  lemma FilterGradStep(a: ConvArgs, n: nat, d: nat, ox: nat, oy: nat, fx: nat, fy: nat, m: nat,
                       w: seq<real>, b: ConvArgs)
    requires GradFrame(a, FilterGrad, w, b, n, d)
    requires ox < a.inWdims[1] && oy < a.inWdims[2] && fx < a.k && fy < a.k && 0 < m <= a.inWdims[3]
    ensures var e := GradEntry(a, FilterGrad, n, d, ox, oy, fx, fy, m - 1);
      ChannelDot(b, n, d, ox, oy, fx, fy, m) == ChannelDot(b, n, d, ox, oy, fx, fy, m - 1) + e.value * w[e.cell]
  {
    var e := GradEntry(a, FilterGrad, n, d, ox, oy, fx, fy, m - 1);
    ChannelDotStep(b, n, d, ox, oy, fx, fy, m, w[e.cell], e.value);
    Commute(w[e.cell], e.value);
  }

  lemma Commute(x: real, y: real)
    ensures x * y == y * x
  {
  }

  /** Weighting a channel loop's unit contributions by `w` gives the forward
      products of `b`, the operands with `w` in place of the differentiated
      buffer. */
  lemma {:induction false} ChannelGradDot(a: ConvArgs, t: GradTarget, n: nat, d: nat, ox: nat, oy: nat,
                                         fx: nat, fy: nat, m: nat, w: seq<real>, b: ConvArgs)
    requires GradFrame(a, t, w, b, n, d)
    requires ox < a.inWdims[1] && oy < a.inWdims[2] && fx < a.k && fy < a.k && m <= a.inWdims[3]
    ensures DotWith(ChannelGrad(a, t, n, d, ox, oy, fx, fy, m), w)
         == ChannelDot(b, n, d, ox, oy, fx, fy, m)
    decreases m
  {
    if m > 0 {
      ChannelGradDot(a, t, n, d, ox, oy, fx, fy, m - 1, w, b);
      ChannelGradStep(a, t, n, d, ox, oy, fx, fy, m, w, b);
    }
  }

  /** One channel more: if channels 0 .. m - 2 agree, so do 0 .. m - 1. */
  lemma ChannelGradStep(a: ConvArgs, t: GradTarget, n: nat, d: nat, ox: nat, oy: nat,
                        fx: nat, fy: nat, m: nat, w: seq<real>, b: ConvArgs)
    requires GradFrame(a, t, w, b, n, d)
    requires ox < a.inWdims[1] && oy < a.inWdims[2] && fx < a.k && fy < a.k && 0 < m <= a.inWdims[3]
    requires DotWith(ChannelGrad(a, t, n, d, ox, oy, fx, fy, m - 1), w)
          == ChannelDot(b, n, d, ox, oy, fx, fy, m - 1)
    ensures DotWith(ChannelGrad(a, t, n, d, ox, oy, fx, fy, m), w)
         == ChannelDot(b, n, d, ox, oy, fx, fy, m)
  {
    if t == InputGrad {
      InputGradStep(a, n, d, ox, oy, fx, fy, m, w, b);
    } else {
      FilterGradStep(a, n, d, ox, oy, fx, fy, m, w, b);
    }
    DotWithExtend(ChannelGrad(a, t, n, d, ox, oy, fx, fy, m), ChannelGrad(a, t, n, d, ox, oy, fx, fy, m - 1),
                  GradEntry(a, t, n, d, ox, oy, fx, fy, m - 1), w,
                  ChannelDot(b, n, d, ox, oy, fx, fy, m - 1), ChannelDot(b, n, d, ox, oy, fx, fy, m));
  }

  lemma TapGradDot(a: ConvArgs, t: GradTarget, n: nat, d: nat, x: int, y: int,
                   fx: nat, fy: nat, w: seq<real>, b: ConvArgs)
    requires GradFrame(a, t, w, b, n, d) && fx < a.k && fy < a.k
    ensures DotWith(TapGrad(a, t, n, d, x, y, fx, fy), w) == TapDot(b, n, d, x, y, fx, fy)
  {
    if TapIn(a.inWdims, x + fx, y + fy) {
      ChannelGradDot(a, t, n, d, (x + fx) as nat, (y + fy) as nat, fx, fy, a.inWdims[3], w, b);
    }
  }

  lemma {:induction false} RowGradDot(a: ConvArgs, t: GradTarget, n: nat, d: nat, x: int, y: int,
                                     fx: nat, m: nat, w: seq<real>, b: ConvArgs)
    requires GradFrame(a, t, w, b, n, d) && fx < a.k && m <= a.k
    ensures DotWith(RowGrad(a, t, n, d, x, y, fx, m), w) == RowDot(b, n, d, x, y, fx, m)
    decreases m
  {
    if m > 0 {
      RowGradDot(a, t, n, d, x, y, fx, m - 1, w, b);
      RowGradStep(a, t, n, d, x, y, fx, m, w, b);
    }
  }

  lemma RowGradStep(a: ConvArgs, t: GradTarget, n: nat, d: nat, x: int, y: int,
                    fx: nat, m: nat, w: seq<real>, b: ConvArgs)
    requires GradFrame(a, t, w, b, n, d) && fx < a.k && 0 < m <= a.k
    requires DotWith(RowGrad(a, t, n, d, x, y, fx, m - 1), w) == RowDot(b, n, d, x, y, fx, m - 1)
    ensures DotWith(RowGrad(a, t, n, d, x, y, fx, m), w) == RowDot(b, n, d, x, y, fx, m)
  {
    TapGradDot(a, t, n, d, x, y, fx, m - 1, w, b);
    DotWithConcat(RowGrad(a, t, n, d, x, y, fx, m), RowGrad(a, t, n, d, x, y, fx, m - 1),
                  TapGrad(a, t, n, d, x, y, fx, m - 1), w,
                  RowDot(b, n, d, x, y, fx, m - 1), TapDot(b, n, d, x, y, fx, m - 1));
  }

  lemma {:induction false} WindowGradDot(a: ConvArgs, t: GradTarget, n: nat, d: nat, x: int, y: int,
                                        m: nat, w: seq<real>, b: ConvArgs)
    requires GradFrame(a, t, w, b, n, d) && m <= a.k
    ensures DotWith(WindowGrad(a, t, n, d, x, y, m), w) == WindowDot(b, n, d, x, y, m)
    decreases m
  {
    if m > 0 {
      WindowGradDot(a, t, n, d, x, y, m - 1, w, b);
      WindowGradStep(a, t, n, d, x, y, m, w, b);
    }
  }

  lemma WindowGradStep(a: ConvArgs, t: GradTarget, n: nat, d: nat, x: int, y: int,
                       m: nat, w: seq<real>, b: ConvArgs)
    requires GradFrame(a, t, w, b, n, d) && 0 < m <= a.k
    requires DotWith(WindowGrad(a, t, n, d, x, y, m - 1), w) == WindowDot(b, n, d, x, y, m - 1)
    ensures DotWith(WindowGrad(a, t, n, d, x, y, m), w) == WindowDot(b, n, d, x, y, m)
  {
    RowGradDot(a, t, n, d, x, y, m - 1, a.k, w, b);
    DotWithConcat(WindowGrad(a, t, n, d, x, y, m), WindowGrad(a, t, n, d, x, y, m - 1),
                  RowGrad(a, t, n, d, x, y, m - 1, a.k), w,
                  WindowDot(b, n, d, x, y, m - 1), RowDot(b, n, d, x, y, m - 1, a.k));
  }

  /** Output cell o of the window products, read at its coordinates. */
  lemma FilteredAt(b: ConvArgs, o: nat)
    requires Operands(b) && b.outWdims[0] <= b.inWdims[0] && o < Volume(b.outWdims)
    ensures var c := Unravel(b.outWdims, o);
      Filtered(b)[o] == WindowDot(b, c[0], c[3], Origin(c[1], b.stride, b.pad), Origin(c[2], b.stride, b.pad), b.k)
  {
  }

  /** Each output cell's unit contributions, weighted by `w`, are that
      cell's window products under `b`. */
  lemma CellUnitDot(a: ConvArgs, t: GradTarget, outG: seq<real>, o: nat, w: seq<real>, b: ConvArgs)
    requires GradShapes(a, outG) && o < |outG| && |w| == GradSize(a, t) && PerturbOf(a, t, w, b)
    ensures DotWith(CellUnits(a, t)[o], w) == Filtered(b)[o]
  {
    var c := Unravel(a.outWdims, o);
    var x, y := Origin(c[1], a.stride, a.pad), Origin(c[2], a.stride, a.pad);
    WindowGradDot(a, t, c[0], c[3], x, y, a.k, w, b);
    FilteredAt(b, o);
  }

  /** The scattered stream weighted by `w` is outG weighted by the forward
      products under `b`. */
  lemma GradStreamDot(a: ConvArgs, t: GradTarget, outG: seq<real>, w: seq<real>, b: ConvArgs)
    requires GradShapes(a, outG) && |w| == GradSize(a, t) && PerturbOf(a, t, w, b)
    ensures DotWith(GradStream(a, t, outG), w) == Inner(outG, Filtered(b))
  {
    var us := CellUnits(a, t);
    forall o | 0 <= o < |us|
      ensures Targets(us[o], |w|) && DotWith(us[o], w) == Filtered(b)[o]
    {
      CellUnitDot(a, t, outG, o, w, b);
    }
    BlocksDot(us, outG, Filtered(b), w, |outG|);
    assert outG[..|outG|] == outG;
    assert Filtered(b)[..|outG|] == Filtered(b);
  }

  /** The input gradient is the adjoint of the forward products: for every
      perturbation `w` of the input, inG weighted by `w` equals outG weighted
      by the forward products computed from `w`. */
  lemma ConvGradInputAdjoint(a: ConvArgs, outG: seq<real>, biasG: seq<real>, w: seq<real>)
    requires GradShapes(a, outG) && a.outWdims[3] <= |biasG| && |w| == |a.inW|
    ensures Inner(ConvolutionGrad(a, outG, biasG).inG, w) == Inner(outG, Filtered(a.(inW := w)))
  {
    ScatterDot(Zeros(|a.inW|), GradStream(a, InputGrad, outG), w);
    InnerZeros(w);
    GradStreamDot(a, InputGrad, outG, w, a.(inW := w));
  }

  /** The filter gradient is the adjoint of the forward products in the
      filter: for every perturbation `w` of the filter, filterG weighted by
      `w` equals outG weighted by the forward products computed with `w`. */
  lemma ConvGradFilterAdjoint(a: ConvArgs, outG: seq<real>, biasG: seq<real>, w: seq<real>)
    requires GradShapes(a, outG) && a.outWdims[3] <= |biasG| && |w| == |a.filterW|
    ensures Inner(ConvolutionGrad(a, outG, biasG).filterG, w) == Inner(outG, Filtered(a.(filterW := w)))
  {
    ScatterDot(Zeros(|a.filterW|), GradStream(a, FilterGrad, outG), w);
    InnerZeros(w);
    GradStreamDot(a, FilterGrad, outG, w, a.(filterW := w));
  }

  /** The output gradient with every cell outside channel d read as 0. */
  function ChannelPart(dims: seq<nat>, outG: seq<real>, d: nat): (r: seq<real>)
    requires |dims| == 4 && |outG| == Volume(dims)
    ensures |r| == |outG|
  {
    seq(|outG|, o requires 0 <= o < |outG| => if Unravel(dims, o)[3] == d then outG[o] else 0.0)
  }

  /** biasG[d] is the sum of the output gradient over channel d for every
      channel the output has; elements past them keep their value. */
  lemma ConvGradBias(a: ConvArgs, outG: seq<real>, biasG: seq<real>, d: nat)
    requires GradShapes(a, outG) && a.outWdims[3] <= |biasG| && d < |biasG|
    ensures ConvolutionGrad(a, outG, biasG).biasG[d]
         == if d < a.outWdims[3] then Sum(ChannelPart(a.outWdims, outG, d)) else biasG[d]
  {
    var depth := a.outWdims[3];
    var cs := BiasStream(a, outG);
    var dest := Zeros(depth) + biasG[depth..];
    ScatterGather(dest, cs, d);
    if d < depth {
      assert dest[d] == 0.0;
      GatherIsMaskedSum(cs, d);
      assert Masked(cs, d) == ChannelPart(a.outWdims, outG, d);
    } else {
      assert dest[d] == biasG[d];
      GatherMissed(cs, d);
    }
  }

  /** The bias gradient gains exactly the output gradient's sum. */
  lemma ConvGradBiasTotal(a: ConvArgs, outG: seq<real>, biasG: seq<real>)
    requires GradShapes(a, outG) && a.outWdims[3] <= |biasG|
    ensures Sum(ConvolutionGrad(a, outG, biasG).biasG) == Sum(biasG[a.outWdims[3]..]) + Sum(outG)
  {
    var depth := a.outWdims[3];
    var cs := BiasStream(a, outG);
    ScatterTotal(Zeros(depth) + biasG[depth..], cs);
    SumAppend(Zeros(depth), biasG[depth..]);
    SumZeros(depth);
    TotalOfValues(cs, outG);
  }
}
