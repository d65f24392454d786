/** The operands of the convolution kernels and the shape facts their loops
    rely on, kept apart from the kernels so that each kernel's precondition
    stays a single fact. */
module ConvOperands {
  import opened Index

  /** The operands of one convolution: input, filter and bias buffers, the
      three extents, and the window's size, stride and padding. */
  datatype ConvArgs = ConvArgs(inW: seq<real>, filterW: seq<real>, biasW: seq<real>,
                               inWdims: seq<nat>, outWdims: seq<nat>, filterWdims: seq<nat>,
                               k: nat, stride: nat, pad: nat)

  /** Extents every kernel here needs: the input and filter buffers match
      their extents and the filter holds every (d, fx, fy, fd) the loops read. */
  predicate Operands(a: ConvArgs)
  {
    // One named fact, so that a call's precondition is checked as a whole.
    var fits :=
      && |a.inWdims| == 4 && |a.outWdims| == 4 && |a.filterWdims| == 4
      && |a.inW| == Volume(a.inWdims) && |a.filterW| == Volume(a.filterWdims)
      && a.outWdims[3] <= a.filterWdims[0]
      && a.k <= a.filterWdims[1] && a.k <= a.filterWdims[2]
      && a.inWdims[3] <= a.filterWdims[3];
    fits
  }

  /** `a` fits and names input batch n and output channel d. */
  predicate Aim(a: ConvArgs, n: nat, d: nat)
  {
    var aimed := Operands(a) && n < a.inWdims[0] && d < a.filterWdims[0];
    aimed
  }

  /** The buffer a gradient is taken with respect to. */
  datatype GradTarget = InputGrad | FilterGrad

  /** The length of the buffer a target names. */
  function GradSize(a: ConvArgs, t: GradTarget): nat
  {
    if t == InputGrad then |a.inW| else |a.filterW|
  }

  /** `b` is `a` with the buffer `t` differentiates replaced by `w`. */
  predicate PerturbOf(a: ConvArgs, t: GradTarget, w: seq<real>, b: ConvArgs)
  {
    var same :=
      && Operands(b)
      && b.inWdims == a.inWdims && b.outWdims == a.outWdims && b.filterWdims == a.filterWdims
      && b.k == a.k && b.stride == a.stride && b.pad == a.pad
      && if t == InputGrad then b.inW == w && b.filterW == a.filterW else b.filterW == w && b.inW == a.inW;
    same
  }

  /** The setting of the adjoint lemmas: `b` is `a` with `w` in place of the
      buffer `t`, and (n, d) name an input batch and an output channel. */
  predicate GradFrame(a: ConvArgs, t: GradTarget, w: seq<real>, b: ConvArgs, n: nat, d: nat)
  {
    var framed := PerturbOf(a, t, w, b) && Aim(a, n, d) && |w| == GradSize(a, t);
    framed
  }
}
