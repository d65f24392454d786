/** Exact sums and the scatter-add pattern shared by the accumulating kernels.

    Several kernels clear a gradient buffer and then run `dest[cell] += value`
    once per loop iteration.  With exact arithmetic the result only depends on
    the stream of (cell, value) pairs the loops produce, so those kernels are
    modelled as a stream of `Contribution`s folded by `ScatterAdd`.
 */
module Sums {

  /** Sum of all elements, accumulated from the front as a loop does. */
  function Sum(s: seq<real>): real
  {
    if |s| == 0 then 0.0 else Sum(s[..|s| - 1]) + s[|s| - 1]
  }

  /** A buffer of `n` zeros, as left by the clearing loops and `memset`. */
  function Zeros(n: nat): (r: seq<real>)
    ensures |r| == n && forall i :: 0 <= i < n ==> r[i] == 0.0
  {
    seq(n, i => 0.0)
  }

  lemma {:induction false} SumAppend(a: seq<real>, b: seq<real>)
    ensures Sum(a + b) == Sum(a) + Sum(b)
    decreases |b|
  {
    if |b| == 0 {
      assert a + b == a;
    } else {
      assert (a + b)[..|a + b| - 1] == a + b[..|b| - 1];
      SumAppend(a, b[..|b| - 1]);
    }
  }

  /** A prefix sum grows by the next element. */
  lemma SumPrefix(s: seq<real>, m: nat)
    requires 0 < m <= |s|
    ensures Sum(s[..m]) == Sum(s[..m - 1]) + s[m - 1]
  {
    assert s[..m][..m - 1] == s[..m - 1];
  }

  /** Overwriting one element changes the sum by the difference. */
  lemma {:induction false} SumUpdate(s: seq<real>, i: nat, v: real)
    requires i < |s|
    ensures Sum(s[i := v]) == Sum(s) - s[i] + v
    decreases |s|
  {
    if i < |s| - 1 {
      assert s[i := v][..|s| - 1] == s[..|s| - 1][i := v];
      SumUpdate(s[..|s| - 1], i, v);
    } else {
      assert s[i := v][..|s| - 1] == s[..|s| - 1];
    }
  }

  /** A cleared buffer sums to zero. */
  lemma {:induction false} SumZeros(n: nat)
    ensures Sum(Zeros(n)) == 0.0
    decreases n
  {
    if n > 0 {
      assert Zeros(n)[..n - 1] == Zeros(n - 1);
      SumZeros(n - 1);
    }
  }

  /** One iteration of an accumulating loop: `dest[cell] += value`. */
  datatype Contribution = Contribution(cell: nat, value: real)

  /** Every contribution lands inside a buffer of `n` elements. */
  predicate Targets(cs: seq<Contribution>, n: nat)
  {
    forall j :: 0 <= j < |cs| ==> CellOf(cs, j) < n
  }

  /** The cell contribution j aims at; named so that facts about a stream's
      cells are drawn only where a proof asks for them. */
  function CellOf(cs: seq<Contribution>, j: nat): nat
    requires j < |cs|
  {
    cs[j].cell
  }

  /** The value contribution j adds; named for the same reason as `CellOf`. */
  function ValueOf(cs: seq<Contribution>, j: nat): real
    requires j < |cs|
  {
    cs[j].value
  }

  /** Every contribution adds `v`. */
  predicate Carries(cs: seq<Contribution>, v: real)
  {
    forall j :: 0 <= j < |cs| ==> ValueOf(cs, j) == v
  }

  /** Two streams that each add `v` everywhere, one after the other. */
  lemma CarriesAppend(a: seq<Contribution>, b: seq<Contribution>, v: real)
    requires Carries(a, v) && Carries(b, v)
    ensures Carries(a + b, v)
  {
    forall j | 0 <= j < |a + b|
      ensures ValueOf(a + b, j) == v
    {
      if j < |a| {
        assert ValueOf(a, j) == v;
      } else {
        assert ValueOf(b, j - |a|) == v;
      }
    }
  }

  /** A stream that lands inside the buffer: its last contribution does, and
      so does the rest. */
  lemma TargetsLast(cs: seq<Contribution>, n: nat)
    requires Targets(cs, n) && |cs| > 0
    ensures Targets(cs[..|cs| - 1], n) && cs[|cs| - 1].cell < n
  {
    assert CellOf(cs, |cs| - 1) < n;
    var front := cs[..|cs| - 1];
    forall j | 0 <= j < |front|
      ensures CellOf(front, j) < n
    {
      assert CellOf(cs, j) < n;
    }
  }

  /** The contributions in loop order, applied one after the other. */
  function ScatterAdd(dest: seq<real>, cs: seq<Contribution>): (r: seq<real>)
    requires Targets(cs, |dest|)
    ensures |r| == |dest|
    decreases |cs|
  {
    if |cs| == 0 then dest
    else
      TargetsLast(cs, |dest|);
      var r0 := ScatterAdd(dest, cs[..|cs| - 1]);
      var c := cs[|cs| - 1];
      r0[c.cell := r0[c.cell] + c.value]
  }

  /** The independent reading: what the contributions aimed at `cell` add up to. */
  function GatherSum(cs: seq<Contribution>, cell: nat): real
  {
    if |cs| == 0 then 0.0
    else GatherSum(cs[..|cs| - 1], cell)
         + (if cs[|cs| - 1].cell == cell then cs[|cs| - 1].value else 0.0)
  }

  /** Sum of all contribution values. */
  function TotalValue(cs: seq<Contribution>): real
  {
    if |cs| == 0 then 0.0 else TotalValue(cs[..|cs| - 1]) + cs[|cs| - 1].value
  }

  /** Each cell ends at its initial value plus the contributions aimed at it. */
  lemma {:induction false} ScatterGather(dest: seq<real>, cs: seq<Contribution>, cell: nat)
    requires Targets(cs, |dest|) && cell < |dest|
    ensures ScatterAdd(dest, cs)[cell] == dest[cell] + GatherSum(cs, cell)
    decreases |cs|
  {
    if |cs| > 0 {
      TargetsLast(cs, |dest|);
      ScatterGather(dest, cs[..|cs| - 1], cell);
    }
  }

  /** Scattering adds exactly the total contribution to the buffer's sum. */
  lemma {:induction false} ScatterTotal(dest: seq<real>, cs: seq<Contribution>)
    requires Targets(cs, |dest|)
    ensures Sum(ScatterAdd(dest, cs)) == Sum(dest) + TotalValue(cs)
    decreases |cs|
  {
    if |cs| > 0 {
      TargetsLast(cs, |dest|);
      var r0 := ScatterAdd(dest, cs[..|cs| - 1]);
      var c := cs[|cs| - 1];
      ScatterTotal(dest, cs[..|cs| - 1]);
      SumUpdate(r0, c.cell, r0[c.cell] + c.value);
    }
  }

  /** A cell no contribution aims at receives nothing. */
  lemma {:induction false} GatherMissed(cs: seq<Contribution>, cell: nat)
    requires forall j :: 0 <= j < |cs| ==> cs[j].cell != cell
    ensures GatherSum(cs, cell) == 0.0
    decreases |cs|
  {
    if |cs| > 0 {
      GatherMissed(cs[..|cs| - 1], cell);
    }
  }

  lemma {:induction false} GatherAppend(a: seq<Contribution>, b: seq<Contribution>, cell: nat)
    ensures GatherSum(a + b, cell) == GatherSum(a, cell) + GatherSum(b, cell)
    decreases |b|
  {
    if |b| == 0 {
      assert a + b == a;
    } else {
      assert (a + b)[..|a + b| - 1] == a + b[..|b| - 1];
      GatherAppend(a, b[..|b| - 1], cell);
    }
  }

  /** Sum of the values of the contributions aimed at a selected cell. */
  function SelectSum(cs: seq<Contribution>, sel: seq<bool>): real
  {
    if |cs| == 0 then 0.0
    else SelectSum(cs[..|cs| - 1], sel)
         + (var c := cs[|cs| - 1]; if c.cell < |sel| && sel[c.cell] then c.value else 0.0)
  }

  lemma {:induction false} SelectAppend(a: seq<Contribution>, b: seq<Contribution>, sel: seq<bool>)
    ensures SelectSum(a + b, sel) == SelectSum(a, sel) + SelectSum(b, sel)
    decreases |b|
  {
    if |b| == 0 {
      assert a + b == a;
    } else {
      assert (a + b)[..|a + b| - 1] == a + b[..|b| - 1];
      SelectAppend(a, b[..|b| - 1], sel);
    }
  }

  /** Weighting by a 0/1 mask adds up the contributions aimed at the cells
      where the mask is 1. */
  lemma {:induction false} SelectIsDot(cs: seq<Contribution>, sel: seq<bool>, w: seq<real>)
    requires Targets(cs, |w|) && |sel| == |w|
    requires forall i :: 0 <= i < |w| ==> w[i] == if sel[i] then 1.0 else 0.0
    ensures DotWith(cs, w) == SelectSum(cs, sel)
    decreases |cs|
  {
    if |cs| > 0 {
      DotWithLast(cs, w);
      SelectIsDot(cs[..|cs| - 1], sel, w);
    }
  }

  lemma {:induction false} TotalAppend(a: seq<Contribution>, b: seq<Contribution>)
    ensures TotalValue(a + b) == TotalValue(a) + TotalValue(b)
    decreases |b|
  {
    if |b| == 0 {
      assert a + b == a;
    } else {
      assert (a + b)[..|a + b| - 1] == a + b[..|b| - 1];
      TotalAppend(a, b[..|b| - 1]);
    }
  }

  /** Contributions whose values are the elements of `s` total Sum(s). */
  lemma {:induction false} TotalOfValues(cs: seq<Contribution>, s: seq<real>)
    requires |cs| == |s| && forall j :: 0 <= j < |cs| ==> cs[j].value == s[j]
    ensures TotalValue(cs) == Sum(s)
    decreases |cs|
  {
    if |cs| > 0 {
      TotalOfValues(cs[..|cs| - 1], s[..|s| - 1]);
    }
  }

  /** `v` added up `m` times. */
  function Scaled(m: nat, v: real): real
  {
    if m == 0 then 0.0 else Scaled(m - 1, v) + v
  }

  lemma {:induction false} ScaledIsProduct(m: nat, v: real)
    ensures Scaled(m, v) == (m as real) * v
  {
    if m > 0 {
      ScaledIsProduct(m - 1, v);
    }
  }

  /** Adding `v` up `a` times and then `b` more times. */
  lemma {:induction false} ScaledAdd(a: nat, b: nat, v: real)
    ensures Scaled(a + b, v) == Scaled(a, v) + Scaled(b, v)
    decreases b
  {
    if b > 0 {
      ScaledAdd(a, b - 1, v);
    }
  }

  /** Nothing added up any number of times is nothing. */
  lemma {:induction false} ScaledZero(m: nat)
    ensures Scaled(m, 0.0) == 0.0
  {
    if m > 0 {
      ScaledZero(m - 1);
    }
  }

  /** Contributions that all carry `v` total `v` times their number. */
  lemma {:induction false} TotalOfConstant(cs: seq<Contribution>, v: real)
    requires Carries(cs, v)
    ensures TotalValue(cs) == Scaled(|cs|, v)
    decreases |cs|
  {
    if |cs| > 0 {
      var front := cs[..|cs| - 1];
      assert ValueOf(cs, |cs| - 1) == v;
      forall j | 0 <= j < |front|
        ensures ValueOf(front, j) == v
      {
        assert ValueOf(cs, j) == v;
      }
      TotalOfConstant(front, v);
    }
  }

  /** What the contributions aimed at `cell` add up to, as one masked sum. */
  function Masked(cs: seq<Contribution>, cell: nat): (r: seq<real>)
    ensures |r| == |cs|
  {
    seq(|cs|, j requires 0 <= j < |cs| => if cs[j].cell == cell then cs[j].value else 0.0)
  }

  lemma {:induction false} GatherIsMaskedSum(cs: seq<Contribution>, cell: nat)
    ensures GatherSum(cs, cell) == Sum(Masked(cs, cell))
    decreases |cs|
  {
    if |cs| > 0 {
      assert Masked(cs, cell)[..|cs| - 1] == Masked(cs[..|cs| - 1], cell);
      GatherIsMaskedSum(cs[..|cs| - 1], cell);
    }
  }

  /** The inner product of two buffers of the same length. */
  function Inner(s: seq<real>, t: seq<real>): real
    requires |s| == |t|
  {
    if |s| == 0 then 0.0 else Inner(s[..|s| - 1], t[..|t| - 1]) + s[|s| - 1] * t[|t| - 1]
  }

  lemma AddTimes(a: real, v: real, x: real)
    ensures (a + v) * x == a * x + v * x
  {
  }

  /** A prefix inner product grows by the next pair's product. */
  lemma InnerPrefix(s: seq<real>, t: seq<real>, m: nat)
    requires |s| == |t| && 0 < m <= |s|
    ensures Inner(s[..m], t[..m]) == Inner(s[..m - 1], t[..m - 1]) + s[m - 1] * t[m - 1]
  {
    assert s[..m][..m - 1] == s[..m - 1];
    assert t[..m][..m - 1] == t[..m - 1];
  }

  /** A cleared buffer is orthogonal to everything. */
  lemma {:induction false} InnerZeros(t: seq<real>)
    ensures Inner(Zeros(|t|), t) == 0.0
    decreases |t|
  {
    if |t| > 0 {
      assert Zeros(|t|)[..|t| - 1] == Zeros(|t| - 1);
      InnerZeros(t[..|t| - 1]);
    }
  }

  /** Raising one element by `v` raises the inner product by `v` times the
      matching weight. */
  lemma {:induction false} InnerUpdate(s: seq<real>, t: seq<real>, i: nat, v: real)
    requires |s| == |t| && i < |s|
    ensures Inner(s[i := s[i] + v], t) == Inner(s, t) + v * t[i]
    decreases |s|
  {
    var n := |s|;
    if i == n - 1 {
      assert s[i := s[i] + v][..n - 1] == s[..n - 1];
      AddTimes(s[i], v, t[i]);
    } else {
      assert s[i := s[i] + v][..n - 1] == s[..n - 1][i := s[i] + v];
      InnerUpdate(s[..n - 1], t[..n - 1], i, v);
    }
  }

  /** The first `n` contributions, each weighted by `w` at its cell, summed.
      Counting by position keeps the recursion from taking prefixes. */
  function DotUpTo(cs: seq<Contribution>, w: seq<real>, n: nat): real
    requires n <= |cs| && Targets(cs, |w|)
  {
    if n == 0 then 0.0 else DotUpTo(cs, w, n - 1) + cs[n - 1].value * w[CellOf(cs, n - 1)]
  }

  /** Each contribution weighted by `w` at its cell, summed. */
  function DotWith(cs: seq<Contribution>, w: seq<real>): real
    requires Targets(cs, |w|)
  {
    DotUpTo(cs, w, |cs|)
  }

  /** The weighted sum of a prefix only reads that prefix. */
  lemma {:induction false} DotUpToPrefix(s: seq<Contribution>, t: seq<Contribution>, w: seq<real>, n: nat)
    requires n <= |s| && n <= |t| && Targets(s, |w|) && Targets(t, |w|)
    requires forall j :: 0 <= j < n ==> s[j] == t[j]
    ensures DotUpTo(s, w, n) == DotUpTo(t, w, n)
    decreases n
  {
    if n > 0 {
      DotUpToPrefix(s, t, w, n - 1);
    }
  }

  /** Dropping the last contribution removes its weighted value. */
  lemma DotWithLast(cs: seq<Contribution>, w: seq<real>)
    requires |cs| > 0 && Targets(cs, |w|)
    ensures Targets(cs[..|cs| - 1], |w|) && cs[|cs| - 1].cell < |w|
    ensures DotWith(cs, w) == DotWith(cs[..|cs| - 1], w) + cs[|cs| - 1].value * w[cs[|cs| - 1].cell]
  {
    TargetsLast(cs, |w|);
    DotUpToPrefix(cs, cs[..|cs| - 1], w, |cs| - 1);
  }

  lemma {:induction false} DotUpToAppend(a: seq<Contribution>, b: seq<Contribution>, w: seq<real>, n: nat)
    requires Targets(a, |w|) && Targets(b, |w|) && n <= |b|
    ensures Targets(a + b, |w|)
    ensures DotUpTo(a + b, w, |a| + n) == DotWith(a, w) + DotUpTo(b, w, n)
    decreases n
  {
    TargetsAppend(a, b, |w|);
    if n == 0 {
      DotUpToPrefix(a + b, a, w, |a|);
    } else {
      DotUpToAppend(a, b, w, n - 1);
      assert (a + b)[|a| + n - 1] == b[n - 1];
    }
  }

  /** The weighted sum of two streams one after the other is the sum of theirs. */
  lemma DotWithAppend(a: seq<Contribution>, b: seq<Contribution>, w: seq<real>)
    requires Targets(a, |w|) && Targets(b, |w|)
    ensures Targets(a + b, |w|)
    ensures DotWith(a + b, w) == DotWith(a, w) + DotWith(b, w)
  {
    DotUpToAppend(a, b, w, |b|);
  }

  /** One more contribution adds its value times the weight at its cell. */
  lemma DotWithSnoc(cs: seq<Contribution>, c: Contribution, w: seq<real>)
    requires Targets(cs, |w|) && c.cell < |w|
    ensures Targets(cs + [c], |w|)
    ensures DotWith(cs + [c], w) == DotWith(cs, w) + c.value * w[c.cell]
  {
    TargetsAppend(cs, [c], |w|);
    DotUpToPrefix(cs + [c], cs, w, |cs|);
  }

  /** A stream `c` that is `a` then `b`, whose weighted sums are known. */
  lemma DotWithConcat(c: seq<Contribution>, a: seq<Contribution>, b: seq<Contribution>, w: seq<real>,
                      p: real, q: real)
    requires c == a + b && Targets(a, |w|) && Targets(b, |w|) && DotWith(a, w) == p && DotWith(b, w) == q
    ensures Targets(c, |w|) && DotWith(c, w) == p + q
  {
    DotWithAppend(a, b, w);
  }

  /** A stream `c` that extends `cs` by `e`, the weighted value of `e` taking
      `p` to `q`. */
  lemma DotWithExtend(c: seq<Contribution>, cs: seq<Contribution>, e: Contribution, w: seq<real>,
                      p: real, q: real)
    requires c == cs + [e] && Targets(cs, |w|) && e.cell < |w| && DotWith(cs, w) == p
    requires q == p + e.value * w[e.cell]
    ensures Targets(c, |w|) && DotWith(c, w) == q
  {
    DotWithSnoc(cs, e, w);
  }

  /** Every contribution's value multiplied by `g`, each aimed where it was. */
  function ScaleBy(cs: seq<Contribution>, g: real): (r: seq<Contribution>)
    ensures |r| == |cs|
  {
    seq(|cs|, j requires 0 <= j < |cs| => Contribution(cs[j].cell, cs[j].value * g))
  }

  lemma ScaleStep(dw: real, dwPrev: real, dot: real, dotPrev: real, g: real, v: real, x: real)
    requires dwPrev == g * dotPrev
    requires dw == dwPrev + (v * g) * x
    requires dot == dotPrev + v * x
    ensures dw == g * dot
  {
  }

  lemma {:induction false} DotUpToScale(cs: seq<Contribution>, g: real, w: seq<real>, n: nat)
    requires Targets(cs, |w|) && n <= |cs|
    ensures Targets(ScaleBy(cs, g), |w|)
    ensures DotUpTo(ScaleBy(cs, g), w, n) == g * DotUpTo(cs, w, n)
    decreases n
  {
    TargetsScale(cs, g, |w|);
    if n > 0 {
      var r := ScaleBy(cs, g);
      DotUpToScale(cs, g, w, n - 1);
      assert r[n - 1] == Contribution(cs[n - 1].cell, cs[n - 1].value * g);
      ScaleStep(DotUpTo(r, w, n), DotUpTo(r, w, n - 1), DotUpTo(cs, w, n), DotUpTo(cs, w, n - 1),
                g, cs[n - 1].value, w[cs[n - 1].cell]);
    }
  }

  /** Scaling the contributions scales their weighted sum. */
  lemma DotWithScale(cs: seq<Contribution>, g: real, w: seq<real>, q: real)
    requires Targets(cs, |w|) && DotWith(cs, w) == q
    ensures Targets(ScaleBy(cs, g), |w|)
    ensures DotWith(ScaleBy(cs, g), w) == g * q
  {
    DotUpToScale(cs, g, w, |cs|);
  }

  /** Blocks 0 .. m - 1 in order, block i's contributions scaled by gs[i]:
      the stream of a loop nest whose outer loop reads one factor per block. */
  function BlocksUpTo(units: seq<seq<Contribution>>, gs: seq<real>, m: nat): seq<Contribution>
    requires m <= |units| == |gs|
  {
    if m == 0 then [] else BlocksUpTo(units, gs, m - 1) + ScaleBy(units[m - 1], gs[m - 1])
  }

  /** Blocks that all land inside the buffer make a stream that does. */
  lemma {:induction false} BlocksTargets(units: seq<seq<Contribution>>, gs: seq<real>, m: nat, n: nat)
    requires m <= |units| == |gs|
    requires forall i :: 0 <= i < |units| ==> Targets(units[i], n)
    ensures Targets(BlocksUpTo(units, gs, m), n)
    decreases m
  {
    if m > 0 {
      BlocksTargets(units, gs, m - 1, n);
      TargetsScale(units[m - 1], gs[m - 1], n);
      TargetsAppend(BlocksUpTo(units, gs, m - 1), ScaleBy(units[m - 1], gs[m - 1]), n);
    }
  }

  /** Scaling leaves every contribution aimed where it was. */
  lemma TargetsScale(cs: seq<Contribution>, g: real, n: nat)
    requires Targets(cs, n)
    ensures Targets(ScaleBy(cs, g), n)
  {
    var r := ScaleBy(cs, g);
    forall j | 0 <= j < |r|
      ensures CellOf(r, j) < n
    {
      assert CellOf(cs, j) < n;
    }
  }

  lemma TargetsAppend(a: seq<Contribution>, b: seq<Contribution>, n: nat)
    requires Targets(a, n) && Targets(b, n)
    ensures Targets(a + b, n)
  {
    forall j | 0 <= j < |a + b|
      ensures CellOf(a + b, j) < n
    {
      if j < |a| {
        assert CellOf(a, j) < n;
      } else {
        assert CellOf(b, j - |a|) < n;
      }
    }
  }

  /** Weighting the scaled blocks by `w` gives the factors' inner product
      with the blocks' own weighted sums `qs`. */
  lemma {:induction false} BlocksDot(units: seq<seq<Contribution>>, gs: seq<real>, qs: seq<real>,
                                    w: seq<real>, m: nat)
    requires m <= |units| == |gs| == |qs|
    requires forall i :: 0 <= i < |units| ==> Targets(units[i], |w|) && DotWith(units[i], w) == qs[i]
    ensures Targets(BlocksUpTo(units, gs, m), |w|)
    ensures DotWith(BlocksUpTo(units, gs, m), w) == Inner(gs[..m], qs[..m])
    decreases m
  {
    BlocksTargets(units, gs, m, |w|);
    if m > 0 {
      BlocksDot(units, gs, qs, w, m - 1);
      DotWithScale(units[m - 1], gs[m - 1], w, qs[m - 1]);
      DotWithAppend(BlocksUpTo(units, gs, m - 1), ScaleBy(units[m - 1], gs[m - 1]), w);
      InnerPrefix(gs, qs, m);
    }
  }

  /** Scattering into a buffer raises its inner product with `w` by the
      contributions weighted by `w`. */
  lemma {:induction false} ScatterDot(dest: seq<real>, cs: seq<Contribution>, w: seq<real>)
    requires Targets(cs, |dest|) && |w| == |dest|
    ensures Inner(ScatterAdd(dest, cs), w) == Inner(dest, w) + DotWith(cs, w)
    decreases |cs|
  {
    if |cs| > 0 {
      TargetsLast(cs, |dest|);
      ScatterDot(dest, cs[..|cs| - 1], w);
      ScatterDotStep(dest, cs, w);
    }
  }

  /** One contribution more: if the prefix raised the inner product by its
      weighted sum, the whole stream does. */
  lemma {:induction false} ScatterDotStep(dest: seq<real>, cs: seq<Contribution>, w: seq<real>)
    requires Targets(cs, |dest|) && |w| == |dest| && |cs| > 0 && Targets(cs[..|cs| - 1], |dest|)
    requires Inner(ScatterAdd(dest, cs[..|cs| - 1]), w) == Inner(dest, w) + DotWith(cs[..|cs| - 1], w)
    ensures Inner(ScatterAdd(dest, cs), w) == Inner(dest, w) + DotWith(cs, w)
  {
    var c, r0 := cs[|cs| - 1], ScatterAdd(dest, cs[..|cs| - 1]);
    TargetsLast(cs, |dest|);
    InnerUpdate(r0, w, c.cell, c.value);
    DotWithLast(cs, w);
  }
}
