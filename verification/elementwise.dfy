/** The element-by-element kernels of the CPU kernel library.

    Every kernel here writes `dest[i]` for `i < sz` and leaves the rest of the
    destination buffer alone; element values are exact reals.
 */
module Elementwise {
  import opened Index
  import opened Sums

  /** The first `sz` elements replaced by `f(i)`, the rest kept. */
  function Fill(dest: seq<real>, sz: nat, f: nat --> real): (r: seq<real>)
    requires sz <= |dest|
    requires forall i :: 0 <= i < sz ==> f.requires(i)
    ensures |r| == |dest|
    ensures forall i :: 0 <= i < sz ==> r[i] == f(i)
    ensures forall i :: sz <= i < |dest| ==> r[i] == dest[i]
  {
    seq(|dest|, i requires 0 <= i < |dest| => if i < sz then f(i) else dest[i])
  }

  /** `MAX(a, b)` of the C macro: the left operand only when strictly greater. */
  function Max(a: real, b: real): real
  {
    if a > b then a else b
  }

  /** `MIN(a, b)` of the C macro: the left operand only when strictly smaller. */
  function Min(a: real, b: real): real
  {
    if a < b then a else b
  }

  /** libjit_splat_f: every one of the first `sz` elements becomes `val`. */
  function Splat(buffer: seq<real>, sz: nat, val: real): (r: seq<real>)
    requires sz <= |buffer|
    ensures |r| == |buffer|
    ensures forall i :: 0 <= i < sz ==> r[i] == val
    ensures forall i :: sz <= i < |buffer| ==> r[i] == buffer[i]
  {
    Fill(buffer, sz, i => val)
  }

  /** libjit_elementmax_f: the larger operand, element by element. */
  function ElementMax(dest: seq<real>, lhs: seq<real>, rhs: seq<real>, sz: nat): (r: seq<real>)
    requires sz <= |dest| && sz <= |lhs| && sz <= |rhs|
    ensures |r| == |dest|
    ensures forall i :: 0 <= i < sz ==>
      r[i] >= lhs[i] && r[i] >= rhs[i] && (r[i] == lhs[i] || r[i] == rhs[i])
    ensures forall i :: sz <= i < |dest| ==> r[i] == dest[i]
  {
    Fill(dest, sz, (i: nat) requires i < sz => Max(lhs[i], rhs[i]))
  }

  /** libjit_elementmax0_f: the rectifier, each element clamped below at zero. */
  function ElementMax0(dest: seq<real>, lhs: seq<real>, sz: nat): (r: seq<real>)
    requires sz <= |dest| && sz <= |lhs|
    ensures |r| == |dest|
    ensures forall i :: 0 <= i < sz ==>
      r[i] >= 0.0 && r[i] >= lhs[i] && (r[i] == lhs[i] || r[i] == 0.0)
    ensures forall i :: sz <= i < |dest| ==> r[i] == dest[i]
  {
    Fill(dest, sz, (i: nat) requires i < sz => Max(lhs[i], 0.0))
  }

  /** libjit_elementmin_f: the smaller operand, element by element. */
  function ElementMin(dest: seq<real>, lhs: seq<real>, rhs: seq<real>, sz: nat): (r: seq<real>)
    requires sz <= |dest| && sz <= |lhs| && sz <= |rhs|
    ensures |r| == |dest|
    ensures forall i :: 0 <= i < sz ==>
      r[i] <= lhs[i] && r[i] <= rhs[i] && (r[i] == lhs[i] || r[i] == rhs[i])
    ensures forall i :: sz <= i < |dest| ==> r[i] == dest[i]
  {
    Fill(dest, sz, (i: nat) requires i < sz => Min(lhs[i], rhs[i]))
  }

  /** libjit_elementselect_f: `lhs` where the condition is non-zero, else `rhs`. */
  function ElementSelect(dest: seq<real>, cond: seq<real>, lhs: seq<real>, rhs: seq<real>, sz: nat): (r: seq<real>)
    requires sz <= |dest| && sz <= |cond| && sz <= |lhs| && sz <= |rhs|
    ensures |r| == |dest|
    ensures forall i :: 0 <= i < sz ==> (cond[i] != 0.0 ==> r[i] == lhs[i]) && (cond[i] == 0.0 ==> r[i] == rhs[i])
    ensures forall i :: sz <= i < |dest| ==> r[i] == dest[i]
  {
    Fill(dest, sz, (i: nat) requires i < sz => if cond[i] != 0.0 then lhs[i] else rhs[i])
  }

  /** libjit_element_cmp_lte_f exactly as written: it compares with `<`. */
  function ElementCmpLteAsWritten(dest: seq<real>, lhs: seq<real>, rhs: seq<real>, numElem: nat): (r: seq<real>)
    requires numElem <= |dest| && numElem <= |lhs| && numElem <= |rhs|
    ensures |r| == |dest|
    ensures forall i :: 0 <= i < numElem ==> (r[i] == 1.0 <==> lhs[i] < rhs[i]) && (r[i] == 0.0 || r[i] == 1.0)
    ensures forall i :: numElem <= i < |dest| ==> r[i] == dest[i]
  {
    Fill(dest, numElem, (i: nat) requires i < numElem => if lhs[i] < rhs[i] then 1.0 else 0.0)
  }

  /** On equal operands the kernel named "less than or equal" reports false. */
  lemma CmpLteAsWrittenRejectsEqual(x: real)
    ensures ElementCmpLteAsWritten([0.0], [x], [x], 1) == [0.0]
  {
    var r := ElementCmpLteAsWritten([0.0], [x], [x], 1);
    assert r[0] == 0.0;
  }

  /** The comparison the kernel's name promises: 1.0 exactly where `lhs <= rhs`. */
  function ElementCmpLte(dest: seq<real>, lhs: seq<real>, rhs: seq<real>, numElem: nat): (r: seq<real>)
    requires numElem <= |dest| && numElem <= |lhs| && numElem <= |rhs|
    ensures |r| == |dest|
    ensures forall i :: 0 <= i < numElem ==> (r[i] == 1.0 <==> lhs[i] <= rhs[i]) && (r[i] == 0.0 || r[i] == 1.0)
    ensures forall i :: numElem <= i < |dest| ==> r[i] == dest[i]
  {
    Fill(dest, numElem, (i: nat) requires i < numElem => if lhs[i] <= rhs[i] then 1.0 else 0.0)
  }

  /** libjit_element_sub_f. */
  function ElementSub(dest: seq<real>, lhs: seq<real>, rhs: seq<real>, numElem: nat): (r: seq<real>)
    requires numElem <= |dest| && numElem <= |lhs| && numElem <= |rhs|
    ensures |r| == |dest|
    ensures forall i :: 0 <= i < numElem ==> r[i] == lhs[i] - rhs[i]
    ensures forall i :: numElem <= i < |dest| ==> r[i] == dest[i]
  {
    Fill(dest, numElem, (i: nat) requires i < numElem => lhs[i] - rhs[i])
  }

  /** libjit_element_add_f. */
  function ElementAdd(dest: seq<real>, lhs: seq<real>, rhs: seq<real>, numElem: nat): (r: seq<real>)
    requires numElem <= |dest| && numElem <= |lhs| && numElem <= |rhs|
    ensures |r| == |dest|
    ensures forall i :: 0 <= i < numElem ==> r[i] == lhs[i] + rhs[i]
    ensures forall i :: numElem <= i < |dest| ==> r[i] == dest[i]
  {
    Fill(dest, numElem, (i: nat) requires i < numElem => lhs[i] + rhs[i])
  }

  /** libjit_element_mul_f. */
  function ElementMul(dest: seq<real>, lhs: seq<real>, rhs: seq<real>, numElem: nat): (r: seq<real>)
    requires numElem <= |dest| && numElem <= |lhs| && numElem <= |rhs|
    ensures |r| == |dest|
    ensures forall i :: 0 <= i < numElem ==> r[i] == lhs[i] * rhs[i]
    ensures forall i :: numElem <= i < |dest| ==> r[i] == dest[i]
  {
    Fill(dest, numElem, (i: nat) requires i < numElem => lhs[i] * rhs[i])
  }

  /** libjit_element_div_f, for divisors that are not zero. */
  function ElementDiv(dest: seq<real>, lhs: seq<real>, rhs: seq<real>, numElem: nat): (r: seq<real>)
    requires numElem <= |dest| && numElem <= |lhs| && numElem <= |rhs|
    requires forall i :: 0 <= i < numElem ==> rhs[i] != 0.0
    ensures |r| == |dest|
    ensures forall i :: 0 <= i < numElem ==> r[i] == lhs[i] / rhs[i]
    ensures forall i :: numElem <= i < |dest| ==> r[i] == dest[i]
  {
    Fill(dest, numElem, (i: nat) requires i < numElem => lhs[i] / rhs[i])
  }

  /** Subtracting what was added restores the left operand. */
  lemma SubUndoesAdd(dest: seq<real>, lhs: seq<real>, rhs: seq<real>, numElem: nat)
    requires numElem <= |dest| && numElem <= |lhs| && numElem <= |rhs|
    ensures ElementSub(dest, ElementAdd(dest, lhs, rhs, numElem), rhs, numElem)[..numElem] == lhs[..numElem]
  {
    var sum := ElementAdd(dest, lhs, rhs, numElem);
    var r := ElementSub(dest, sum, rhs, numElem);
    forall i | 0 <= i < numElem
      ensures r[i] == lhs[i]
    {
      assert sum[i] == lhs[i] + rhs[i];
    }
  }

  /** Dividing by what was multiplied in restores the left operand. */
  lemma DivUndoesMul(dest: seq<real>, lhs: seq<real>, rhs: seq<real>, numElem: nat)
    requires numElem <= |dest| && numElem <= |lhs| && numElem <= |rhs|
    requires forall i :: 0 <= i < numElem ==> rhs[i] != 0.0
    ensures ElementDiv(dest, ElementMul(dest, lhs, rhs, numElem), rhs, numElem)[..numElem] == lhs[..numElem]
  {
    var prod := ElementMul(dest, lhs, rhs, numElem);
    var r := ElementDiv(dest, prod, rhs, numElem);
    forall i | 0 <= i < numElem
      ensures r[i] == lhs[i]
    {
      assert prod[i] == lhs[i] * rhs[i];
    }
  }

  /** Element-wise min is a select driven by the `<=` comparison. */
  lemma MinIsSelectOfCmp(dest: seq<real>, lhs: seq<real>, rhs: seq<real>, sz: nat)
    requires sz <= |dest| && sz <= |lhs| && sz <= |rhs|
    ensures ElementMin(dest, lhs, rhs, sz)
         == ElementSelect(dest, ElementCmpLte(dest, lhs, rhs, sz), lhs, rhs, sz)
  {
    var m := ElementMin(dest, lhs, rhs, sz);
    var c := ElementCmpLte(dest, lhs, rhs, sz);
    var s := ElementSelect(dest, c, lhs, rhs, sz);
    forall i | 0 <= i < |dest|
      ensures m[i] == s[i]
    {
      if i < sz {
        assert c[i] != 0.0 <==> lhs[i] <= rhs[i];
      }
    }
  }

  /** Element-wise max is a select driven by the `<=` comparison of the swapped operands. */
  lemma MaxIsSelectOfCmp(dest: seq<real>, lhs: seq<real>, rhs: seq<real>, sz: nat)
    requires sz <= |dest| && sz <= |lhs| && sz <= |rhs|
    ensures ElementMax(dest, lhs, rhs, sz)
         == ElementSelect(dest, ElementCmpLte(dest, lhs, rhs, sz), rhs, lhs, sz)
  {
    var m := ElementMax(dest, lhs, rhs, sz);
    var c := ElementCmpLte(dest, lhs, rhs, sz);
    var s := ElementSelect(dest, c, rhs, lhs, sz);
    forall i | 0 <= i < |dest|
      ensures m[i] == s[i]
    {
      if i < sz {
        assert c[i] != 0.0 <==> lhs[i] <= rhs[i];
      }
    }
  }

  /** The rectifier is the element-wise max against a splat of zeros. */
  lemma Max0IsMaxWithZeros(dest: seq<real>, lhs: seq<real>, sz: nat)
    requires sz <= |dest| && sz <= |lhs|
    ensures ElementMax0(dest, lhs, sz) == ElementMax(dest, lhs, Splat(dest, sz, 0.0), sz)
  {
    var a := ElementMax0(dest, lhs, sz);
    var z := Splat(dest, sz, 0.0);
    var b := ElementMax(dest, lhs, z, sz);
    forall i | 0 <= i < |dest|
      ensures a[i] == b[i]
    {
      if i < sz {
        assert z[i] == 0.0;
      }
    }
  }

  /** libjit_copy_buffer: the first `bytes` bytes of `src` copied into `dest`. */
  method CopyBuffer<T>(dest: seq<T>, src: seq<T>, bytes: nat) returns (r: seq<T>)
    requires bytes <= |dest| && bytes <= |src|
    ensures |r| == |dest|
    ensures r[..bytes] == src[..bytes]
    ensures r[bytes..] == dest[bytes..]
  {
    r := dest;
    var i := 0;
    while i < bytes
      invariant 0 <= i <= bytes
      invariant |r| == |dest|
      invariant r[..i] == src[..i]
      invariant r[i..] == dest[i..]
    {
      r := r[i := src[i]];
      i := i + 1;
    }
  }

  /** One-hot test of libjit_softmaxgrad_f: 1.0 in the selected column. */
  function Delta(selected: nat, i: nat): real
  {
    if selected == i then 1.0 else 0.0
  }

  /** The row of 2-D tensor `buf` at batch index `n`. */
  function Row(buf: seq<real>, dims: seq<nat>, n: nat): (r: seq<real>)
    requires |dims| == 2 && n < dims[0] && |buf| == Volume(dims)
    ensures |r| == dims[1]
  {
    seq(dims[1], i requires 0 <= i < dims[1] => buf[GetXY(dims, n, i)])
  }

  /** libjit_softmaxgrad_f: the softmax output minus the one-hot selection, row by row.
      `selectedW` holds the chosen column of row `n` at (n, 0) of `selectdim`. */
  function SoftMaxGrad(outW: seq<real>, selectedW: seq<nat>, idim: seq<nat>, selectdim: seq<nat>): (inG: seq<real>)
    requires |idim| == 2 && |selectdim| == 2
    requires |outW| == Volume(idim) && |selectedW| == Volume(selectdim)
    requires idim[0] <= selectdim[0] && 0 < selectdim[1]
    ensures |inG| == Volume(idim)
  {
    seq(Volume(idim), k requires 0 <= k < Volume(idim) =>
      var c := Unravel(idim, k);
      outW[k] - Delta(selectedW[GetXY(selectdim, c[0], 0)], c[1]))
  }

  lemma {:induction false} SumMinusOneHot(a: seq<real>, s: nat)
    ensures Sum(seq(|a|, i requires 0 <= i < |a| => a[i] - Delta(s, i)))
         == Sum(a) - (if s < |a| then 1.0 else 0.0)
    decreases |a|
  {
    var b := seq(|a|, i requires 0 <= i < |a| => a[i] - Delta(s, i));
    if |a| > 0 {
      var a' := a[..|a| - 1];
      assert b[..|b| - 1] == seq(|a'|, i requires 0 <= i < |a'| => a'[i] - Delta(s, i));
      SumMinusOneHot(a', s);
    }
  }

  /** Each gradient row sums to the softmax row's sum, less one when the
      selected column lies inside the row. */
  lemma SoftMaxGradRowSum(outW: seq<real>, selectedW: seq<nat>, idim: seq<nat>, selectdim: seq<nat>, n: nat)
    requires |idim| == 2 && |selectdim| == 2
    requires |outW| == Volume(idim) && |selectedW| == Volume(selectdim)
    requires idim[0] <= selectdim[0] && 0 < selectdim[1]
    requires n < idim[0]
    ensures var s := selectedW[GetXY(selectdim, n, 0)];
      Sum(Row(SoftMaxGrad(outW, selectedW, idim, selectdim), idim, n))
      == Sum(Row(outW, idim, n)) - (if s < idim[1] then 1.0 else 0.0)
  {
    var g := SoftMaxGrad(outW, selectedW, idim, selectdim);
    var s := selectedW[GetXY(selectdim, n, 0)];
    var a := Row(outW, idim, n);
    forall i | 0 <= i < idim[1]
      ensures Row(g, idim, n)[i] == a[i] - Delta(s, i)
    {
      UnravelOffset(idim, [n, i]);
    }
    assert Row(g, idim, n) == seq(|a|, i requires 0 <= i < |a| => a[i] - Delta(s, i));
    SumMinusOneHot(a, s);
  }

  /** The gradient at (n, i) is the softmax output less one exactly at the selected column. */
  lemma SoftMaxGradCell(outW: seq<real>, selectedW: seq<nat>, idim: seq<nat>, selectdim: seq<nat>, n: nat, i: nat)
    requires |idim| == 2 && |selectdim| == 2
    requires |outW| == Volume(idim) && |selectedW| == Volume(selectdim)
    requires idim[0] <= selectdim[0] && 0 < selectdim[1]
    requires n < idim[0] && i < idim[1]
    ensures var g := SoftMaxGrad(outW, selectedW, idim, selectdim)[GetXY(idim, n, i)];
      (selectedW[GetXY(selectdim, n, 0)] == i ==> g == outW[GetXY(idim, n, i)] - 1.0) &&
      (selectedW[GetXY(selectdim, n, 0)] != i ==> g == outW[GetXY(idim, n, i)])
  {
    UnravelOffset(idim, [n, i]);
  }
}
