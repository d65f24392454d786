/** libjit_transpose_f: reordering the axes of a 2-, 3- or 4-D tensor.

    Output coordinate `o` reads the input at the source coordinate `SC`
    defined by `SC[shuffle[k]] = o[k]`; the output extents are the input
    extents taken in shuffle order.
 */
module Transpose {
  import opened Index

  /** `p` lists each axis 0 .. |p|-1 exactly once. */
  predicate IsPermutation(p: seq<nat>)
  {
    && (forall i :: 0 <= i < |p| ==> p[i] < |p|)
    && (forall i, j :: 0 <= i < j < |p| ==> p[i] != p[j])
    && (forall a :: 0 <= a < |p| ==> a in p)
  }

  /** The position at which `p` holds `a`. */
  function IndexOf(p: seq<nat>, a: nat): (k: nat)
    requires a in p
    ensures k < |p| && p[k] == a
  {
    if p[0] == a then 0 else IndexOf(p[1..], a) + 1
  }

  /** The inverse permutation: `Inverse(p)[p[k]] == k`. */
  function Inverse(p: seq<nat>): (q: seq<nat>)
    requires IsPermutation(p)
    ensures |q| == |p|
    ensures forall a :: 0 <= a < |p| ==> q[a] < |p| && p[q[a]] == a
  {
    seq(|p|, a requires 0 <= a < |p| => IndexOf(p, a))
  }

  /** `s` read in the order `p` names: the k-th entry is `s[p[k]]`. */
  function Permute(s: seq<nat>, p: seq<nat>): (r: seq<nat>)
    requires forall k :: 0 <= k < |p| ==> p[k] < |s|
    ensures |r| == |p|
  {
    seq(|p|, k requires 0 <= k < |p| => s[p[k]])
  }

  lemma InverseAfter(p: seq<nat>, k: nat)
    requires IsPermutation(p) && k < |p|
    ensures Inverse(p)[p[k]] == k
  {
    var q := Inverse(p);
    var k' := q[p[k]];
    assert p[k'] == p[k];
  }

  /** The inverse of a permutation is a permutation. */
  lemma InverseIsPermutation(p: seq<nat>)
    requires IsPermutation(p)
    ensures IsPermutation(Inverse(p))
  {
    var q := Inverse(p);
    forall k | 0 <= k < |q|
      ensures k in q
    {
      InverseAfter(p, k);
    }
  }

  /** Inverting twice gives the permutation back. */
  lemma InverseInverse(p: seq<nat>)
    requires IsPermutation(p)
    ensures IsPermutation(Inverse(p)) && Inverse(Inverse(p)) == p
  {
    InverseIsPermutation(p);
    var q := Inverse(p);
    forall k | 0 <= k < |p|
      ensures Inverse(q)[k] == p[k]
    {
      InverseAfter(p, k);
    }
  }

  /** Permuting by `p` and then by its inverse restores the original order. */
  lemma PermuteThenInverse(s: seq<nat>, p: seq<nat>)
    requires IsPermutation(p) && |s| == |p|
    ensures Permute(Permute(s, p), Inverse(p)) == s
  {
  }

  /** The source coordinate of output coordinate `o`. */
  function SourceCoord(shuffle: seq<nat>, o: seq<nat>): (sc: seq<nat>)
    requires IsPermutation(shuffle) && |o| == |shuffle|
    ensures |sc| == |shuffle|
    ensures forall k :: 0 <= k < |shuffle| ==> sc[shuffle[k]] == o[k]
  {
    forall k | 0 <= k < |shuffle|
      ensures Inverse(shuffle)[shuffle[k]] == k
    {
      InverseAfter(shuffle, k);
    }
    Permute(o, Inverse(shuffle))
  }

  /** Output extents the caller passes alongside the shuffle. */
  predicate ShapesAgree(idim: seq<nat>, odim: seq<nat>, shuffle: seq<nat>)
  {
    |idim| == |shuffle| && IsPermutation(shuffle) && odim == Permute(idim, shuffle)
  }

  /** In-bounds output coordinates have in-bounds source coordinates. */
  lemma SourceCoordInBounds(idim: seq<nat>, odim: seq<nat>, shuffle: seq<nat>, o: seq<nat>)
    requires ShapesAgree(idim, odim, shuffle) && InBounds(odim, o)
    ensures InBounds(idim, SourceCoord(shuffle, o))
  {
    var sc := SourceCoord(shuffle, o);
    var q := Inverse(shuffle);
    forall j | 0 <= j < |sc|
      ensures sc[j] < idim[j]
    {
      assert sc[j] == o[q[j]];
      assert odim[q[j]] == idim[shuffle[q[j]]];
    }
  }

  /** libjit_transpose_f: ranks 2, 3 and 4 are transposed; any other rank
      leaves the output buffer as it was, and reads none of the extents. */
  function Transpose(inW: seq<real>, outW: seq<real>, idim: seq<nat>, odim: seq<nat>,
                     shuffle: seq<nat>): (r: seq<real>)
    requires 2 <= |shuffle| <= 4 ==>
      ShapesAgree(idim, odim, shuffle) && |inW| == Volume(idim) && |outW| == Volume(odim)
    ensures |r| == |outW|
    ensures !(2 <= |shuffle| <= 4) ==> r == outW
  {
    if 2 <= |shuffle| <= 4 then
      seq(Volume(odim), o requires 0 <= o < Volume(odim) =>
        var c := Unravel(odim, o);
        SourceCoordInBounds(idim, odim, shuffle, c);
        OffsetBound(idim, SourceCoord(shuffle, c));
        inW[Offset(idim, SourceCoord(shuffle, c))])
    else outW
  }

  /** Every output element is the input element at its source coordinate. */
  lemma TransposeCell(inW: seq<real>, outW: seq<real>, idim: seq<nat>, odim: seq<nat>,
                      shuffle: seq<nat>, o: seq<nat>)
    requires ShapesAgree(idim, odim, shuffle) && 2 <= |shuffle| <= 4
    requires |inW| == Volume(idim) && |outW| == Volume(odim)
    requires InBounds(odim, o)
    ensures Offset(odim, o) < Volume(odim)
    ensures InBounds(idim, SourceCoord(shuffle, o)) && Offset(idim, SourceCoord(shuffle, o)) < Volume(idim)
    ensures Transpose(inW, outW, idim, odim, shuffle)[Offset(odim, o)]
         == inW[Offset(idim, SourceCoord(shuffle, o))]
  {
    UnravelOffset(odim, o);
    SourceCoordInBounds(idim, odim, shuffle, o);
    OffsetBound(idim, SourceCoord(shuffle, o));
  }

  /** The 4-D loop nest: out[x, y, z, w] = in[SC[0], SC[1], SC[2], SC[3]]
      with SC[shuffle[0]] = x, SC[shuffle[1]] = y, SC[shuffle[2]] = z, SC[shuffle[3]] = w. */
  lemma Transpose4Cell(inW: seq<real>, outW: seq<real>, idim: seq<nat>, odim: seq<nat>,
                       shuffle: seq<nat>, x: nat, y: nat, z: nat, w: nat)
    requires ShapesAgree(idim, odim, shuffle) && |shuffle| == 4
    requires |inW| == Volume(idim) && |outW| == Volume(odim)
    requires x < odim[0] && y < odim[1] && z < odim[2] && w < odim[3]
    ensures var sc := SourceCoord(shuffle, [x, y, z, w]);
      && sc[shuffle[0]] == x && sc[shuffle[1]] == y && sc[shuffle[2]] == z && sc[shuffle[3]] == w
      && sc[0] < idim[0] && sc[1] < idim[1] && sc[2] < idim[2] && sc[3] < idim[3]
      && Transpose(inW, outW, idim, odim, shuffle)[GetXYZW(odim, x, y, z, w)]
         == inW[GetXYZW(idim, sc[0], sc[1], sc[2], sc[3])]
  {
    var o := [x, y, z, w];
    TransposeCell(inW, outW, idim, odim, shuffle, o);
    var sc := SourceCoord(shuffle, o);
    assert sc == [sc[0], sc[1], sc[2], sc[3]];
  }

  /** The 2-D loop nest: out[x, y] = in[SC[0], SC[1]]. */
  lemma Transpose2Cell(inW: seq<real>, outW: seq<real>, idim: seq<nat>, odim: seq<nat>,
                       shuffle: seq<nat>, x: nat, y: nat)
    requires ShapesAgree(idim, odim, shuffle) && |shuffle| == 2
    requires |inW| == Volume(idim) && |outW| == Volume(odim)
    requires x < odim[0] && y < odim[1]
    ensures var sc := SourceCoord(shuffle, [x, y]);
      && sc[shuffle[0]] == x && sc[shuffle[1]] == y
      && sc[0] < idim[0] && sc[1] < idim[1]
      && Transpose(inW, outW, idim, odim, shuffle)[GetXY(odim, x, y)]
         == inW[GetXY(idim, sc[0], sc[1])]
  {
    var o := [x, y];
    TransposeCell(inW, outW, idim, odim, shuffle, o);
    var sc := SourceCoord(shuffle, o);
    assert sc == [sc[0], sc[1]];
  }

  /** Transposing by a permutation and then by its inverse restores the tensor. */
  lemma TransposeRoundTrip(inW: seq<real>, outW: seq<real>, back: seq<real>,
                           idim: seq<nat>, odim: seq<nat>, shuffle: seq<nat>)
    requires ShapesAgree(idim, odim, shuffle) && 2 <= |shuffle| <= 4
    requires |inW| == Volume(idim) && |outW| == Volume(odim) && |back| == Volume(idim)
    ensures ShapesAgree(odim, idim, Inverse(shuffle))
    ensures Transpose(Transpose(inW, outW, idim, odim, shuffle), back, odim, idim, Inverse(shuffle)) == inW
  {
    InverseInverse(shuffle);
    PermuteThenInverse(idim, shuffle);
    var q := Inverse(shuffle);
    var t := Transpose(inW, outW, idim, odim, shuffle);
    var r := Transpose(t, back, odim, idim, q);
    forall i | 0 <= i < |inW|
      ensures r[i] == inW[i]
    {
      var c := Unravel(idim, i);
      TransposeCell(t, back, odim, idim, q, c);
      var mid := SourceCoord(q, c);
      // The second pass reads the intermediate tensor at c permuted by shuffle.
      assert mid == Permute(c, shuffle);
      TransposeCell(inW, outW, idim, odim, shuffle, mid);
      assert SourceCoord(shuffle, mid) == c by {
        PermuteThenInverse(c, shuffle);
      }
    }
  }
}
