/** The operator importer's lowering rules (CommonOperatorLoader).

    The importer visits the serialized operators in order.  For each one it
    resolves the input names against a name-to-value environment, appends
    the nodes that implement the operator to the graph, and binds the
    operator's output names.  The graph only grows, so a node is named by
    its position in it.  Node type inference, the weight table and the
    parsing of attributes belong to collaborators: they appear here as the
    `Collaborators` record and as an already-parsed attribute dictionary.
 */
module Loader {
  import opened Index
  import opened Transpose

  /** Result `res` of node number `node`. */
  datatype NodeValue = NodeValue(node: nat, res: nat)

  /** What a node computes, with the attributes the importer hands it. */
  datatype Kind =
    | Variable
    | Relu
    | Sigmoid
    | Add
    | Mul
    | Sub
    | Div
    | SoftMax
    | Flatten(axis: int)
    | LocalResponseNorm(halfWindow: nat, alpha: real, beta: real, bias: real)
    | Shuffle(perm: seq<nat>)
    | Broadcast(dims: seq<nat>, axis: int)
    | Slice(sliceAxis: nat, split: seq<nat>, part: nat, parts: nat)
    | Reshape(dims: seq<nat>)

  datatype Node = Node(kind: Kind, name: string, operands: seq<NodeValue>)

  /** The graph built so far and the name-to-value environment. */
  datatype State = State(graph: seq<Node>, env: map<string, NodeValue>)

  /** One serialized operator: its name and its input and output names. */
  datatype Op = Op(name: string, inputs: seq<string>, outputs: seq<string>)

  /** A parsed attribute. */
  datatype Attr = IntArg(i: int) | FloatArg(f: real) | IntsArg(s: seq<int>)

  type Dict = map<string, Attr>

  /** What the loader asks of code outside this file: the extents of a
      node's first result (the graph's type inference), the contents of a
      named weight tensor, and the format's broadcast flag. */
  datatype Collaborators = Collaborators(
    dims0: (seq<Node>, nat) -> seq<nat>,
    tensor: string -> seq<nat>,
    getBroadcast: Dict -> bool)

  /** The base class's getBroadcast: arithmetic broadcasts unless a format
      says otherwise. */
  function DefaultBroadcast(dict: Dict): (b: bool)
    ensures b
  {
    true
  }

  const SizeTModulus: nat := 0x1_0000_0000_0000_0000

  /** A signed value stored into a `size_t`. */
  function ToSizeT(v: int): (r: nat)
    ensures r < SizeTModulus
    ensures 0 <= v < SizeTModulus ==> r == v
  {
    v % SizeTModulus
  }

  const UnsignedModulus: nat := 0x1_0000_0000

  // ---------------------------------------------------------------------------
  // The graph invariant

  /** Every bound name and every operand refers to a node that exists, and
      operands refer to earlier nodes: the graph is built in dependency order. */
  predicate WellFormed(st: State)
  {
    && (forall k :: k in st.env ==> st.env[k].node < |st.graph|)
    && (forall i, j :: 0 <= i < |st.graph| && 0 <= j < |st.graph[i].operands| ==>
          st.graph[i].operands[j].node < i)
  }

  /** `r` keeps every node of `st` and every name `st` bound is still bound. */
  predicate Extends(st: State, r: State)
  {
    && |st.graph| <= |r.graph| && r.graph[..|st.graph|] == st.graph
    && st.env.Keys <= r.env.Keys
  }

  /** Appends `n` as the next node. */
  function AddNode(st: State, n: Node): (r: State)
    requires WellFormed(st)
    requires forall j :: 0 <= j < |n.operands| ==> n.operands[j].node < |st.graph|
    ensures WellFormed(r) && Extends(st, r)
    ensures r.graph == st.graph + [n] && r.env == st.env
  {
    var r := State(st.graph + [n], st.env);
    assert r.graph[..|st.graph|] == st.graph;
    r
  }

  /** getNodeValueOrCreateVariableByName: the value bound to `name`, or,
      the first time a name is met, a new Variable node bound to it. */
  function Resolve(st: State, name: string): (r: (NodeValue, State))
    requires WellFormed(st)
    ensures WellFormed(r.1) && Extends(st, r.1)
    ensures name in r.1.env && r.1.env[name] == r.0 && r.0.node < |r.1.graph|
    ensures name in st.env ==> r.1 == st
    ensures name !in st.env ==>
      && r.1.graph == st.graph + [Node(Variable, name, [])]
      && r.1.env == st.env[name := NodeValue(|st.graph|, 0)]
  {
    if name in st.env then (st.env[name], st)
    else
      var s := AddNode(st, Node(Variable, name, []));
      (NodeValue(|st.graph|, 0), State(s.graph, s.env[name := NodeValue(|st.graph|, 0)]))
  }

  // ---------------------------------------------------------------------------
  // Binding outputs

  /** The environment after binding outs[i] to value(i) for i = 0 .. m - 1,
      in that order, so that a name given twice keeps its later value. */
  function Bind(env: map<string, NodeValue>, outs: seq<string>, value: nat -> NodeValue, m: nat)
    : map<string, NodeValue>
    requires m <= |outs|
  {
    if m == 0 then env else Bind(env, outs, value, m - 1)[outs[m - 1] := value(m - 1)]
  }

  /** The last position below `m` that holds `k`, or -1 when none does. */
  function LastIndex(outs: seq<string>, k: string, m: nat): (i: int)
    requires m <= |outs|
    ensures -1 <= i < m
    ensures i >= 0 ==> outs[i] == k && forall j :: i < j < m ==> outs[j] != k
    ensures i == -1 ==> forall j :: 0 <= j < m ==> outs[j] != k
  {
    if m == 0 then -1 else if outs[m - 1] == k then m - 1 else LastIndex(outs, k, m - 1)
  }

  /** What Bind leaves under one name: the value of its last binding
      position, or its old value when no position names it. */
  lemma {:induction false} BindAt(env: map<string, NodeValue>, outs: seq<string>, value: nat -> NodeValue,
                                  m: nat, k: string)
    requires m <= |outs|
    ensures k in Bind(env, outs, value, m) <==> k in env || LastIndex(outs, k, m) >= 0
    ensures k in Bind(env, outs, value, m) ==>
      Bind(env, outs, value, m)[k] ==
        if LastIndex(outs, k, m) >= 0 then value(LastIndex(outs, k, m)) else env[k]
    decreases m
  {
    if m > 0 {
      BindAt(env, outs, value, m - 1, k);
    }
  }

  /** After binding `outs` with `value`, name `k` is bound exactly when it
      was bound before or is an output; an output holds the value of its
      last position, and any other name keeps its old value. */
  ghost predicate BoundAs(before: map<string, NodeValue>, after: map<string, NodeValue>, outs: seq<string>,
                    value: nat -> NodeValue, k: string)
  {
    && (k in after <==> k in before || k in outs)
    && (k in outs ==> k in after && after[k] == value(LastIndex(outs, k, |outs|)))
    && (k !in outs && k in before ==> k in after && after[k] == before[k])
  }

  ghost predicate BindsOutputs(before: map<string, NodeValue>, after: map<string, NodeValue>, outs: seq<string>,
                         value: nat -> NodeValue)
  {
    forall k :: BoundAs(before, after, outs, value, k)
  }

  /** Binds every name of `outs`, each to a node that exists. */
  function BindAll(st: State, outs: seq<string>, value: nat -> NodeValue): (s: State)
    requires WellFormed(st)
    requires forall i :: 0 <= i < |outs| ==> value(i).node < |st.graph|
    ensures WellFormed(s) && Extends(st, s) && s.graph == st.graph
    ensures BindsOutputs(st.env, s.env, outs, value)
  {
    var s := State(st.graph, Bind(st.env, outs, value, |outs|));
    assert BindsOutputs(st.env, s.env, outs, value) by {
      forall k
        ensures BoundAs(st.env, s.env, outs, value, k)
      {
        BindAt(st.env, outs, value, |outs|, k);
      }
    }
    assert forall k :: k in s.env ==> s.env[k].node < |s.graph| by {
      forall k | k in s.env
        ensures s.env[k].node < |s.graph|
      {
        assert BoundAs(st.env, s.env, outs, value, k);
      }
    }
    assert forall k :: k in st.env ==> k in s.env by {
      forall k | k in st.env
        ensures k in s.env
      {
        assert BoundAs(st.env, s.env, outs, value, k);
      }
    }
    s
  }

  /** Output i of an operator names result i of one node. */
  function ResultsOf(r: nat): nat -> NodeValue
  {
    (i: nat) => NodeValue(r, i)
  }

  /** addNodeAsOutput: output i of the operator names result i of node `r`,
      the last of equal names winning, and no other name changes. */
  function AddNodeAsOutput(st: State, op: Op, r: nat): (s: State)
    requires WellFormed(st) && r < |st.graph|
    ensures WellFormed(s) && Extends(st, s) && s.graph == st.graph
    ensures BindsOutputs(st.env, s.env, op.outputs, ResultsOf(r))
  {
    BindAll(st, op.outputs, ResultsOf(r))
  }

  // ---------------------------------------------------------------------------
  // Attributes

  /** loadInt on an attribute the dictionary holds. */
  predicate HasInt(dict: Dict, key: string)
  {
    key in dict && dict[key].IntArg?
  }

  predicate HasFloat(dict: Dict, key: string)
  {
    key in dict && dict[key].FloatArg?
  }

  /** `dict.count(key) ? loadInt(dict[key]) : default`. */
  function IntOr(dict: Dict, key: string, default: int): (v: int)
    requires key in dict ==> dict[key].IntArg?
    ensures key !in dict ==> v == default
    ensures key in dict ==> v == dict[key].i
  {
    if key in dict then dict[key].i else default
  }

  // ---------------------------------------------------------------------------
  // Unary operators

  /** loadRelu and loadSigmoid: one node on the first input. */
  function LoadUnary(st: State, op: Op, kind: Kind): (s: State)
    requires WellFormed(st) && |op.inputs| >= 1
    ensures WellFormed(s) && Extends(st, s)
    ensures var (inV, s1) := Resolve(st, op.inputs[0]);
      && s.graph == s1.graph + [Node(kind, op.name, [inV])]
      && BindsOutputs(s1.env, s.env, op.outputs, ResultsOf(|s1.graph|))
  {
    var (inV, s1) := Resolve(st, op.inputs[0]);
    var s2 := AddNode(s1, Node(kind, op.name, [inV]));
    AddNodeAsOutput(s2, op, |s1.graph|)
  }

  /** loadSum: an Add of the first two inputs. */
  function LoadSum(st: State, op: Op): (s: State)
    requires WellFormed(st) && |op.inputs| == 2
    ensures WellFormed(s) && Extends(st, s)
    ensures var (in0, s1) := Resolve(st, op.inputs[0]);
      var (in1, s2) := Resolve(s1, op.inputs[1]);
      && s.graph == s2.graph + [Node(Add, op.name, [in0, in1])]
      && BindsOutputs(s2.env, s.env, op.outputs, ResultsOf(|s2.graph|))
  {
    var (in0, s1) := Resolve(st, op.inputs[0]);
    var (in1, s2) := Resolve(s1, op.inputs[1]);
    var s3 := AddNode(s2, Node(Add, op.name, [in0, in1]));
    AddNodeAsOutput(s3, op, |s2.graph|)
  }

  /** loadSoftmax: "softmax_expected" is resolved first; the input is
      flattened at axis 1 and fed to the softmax. */
  function LoadSoftmax(st: State, op: Op): (s: State)
    requires WellFormed(st) && |op.inputs| >= 1
    ensures WellFormed(s) && Extends(st, s)
    ensures var (expected, s1) := Resolve(st, "softmax_expected");
      var (inV, s2) := Resolve(s1, op.inputs[0]);
      var n := |s2.graph|;
      && s.graph == s2.graph + [Node(Flatten(1), "flatten", [inV]),
                                Node(SoftMax, op.name, [NodeValue(n, 0), expected])]
      && BindsOutputs(s2.env, s.env, op.outputs, ResultsOf(n + 1))
  {
    var (expected, s1) := Resolve(st, "softmax_expected");
    var (inV, s2) := Resolve(s1, op.inputs[0]);
    var s3 := AddNode(s2, Node(Flatten(1), "flatten", [inV]));
    var s4 := AddNode(s3, Node(SoftMax, op.name, [NodeValue(|s2.graph|, 0), expected]));
    AddNodeAsOutput(s4, op, |s3.graph|)
  }

  // ---------------------------------------------------------------------------
  // Local response normalization

  /** The layout shuffles of the graph library: channel-first to
      channel-last and back. */
  const NCHW2NHWC: seq<nat> := [0, 2, 3, 1]
  const NHWC2NCHW: seq<nat> := [0, 3, 1, 2]

  lemma ChannelLastIsPermutation()
    ensures IsPermutation(NCHW2NHWC)
  {
    assert NCHW2NHWC[0] == 0 && NCHW2NHWC[3] == 1 && NCHW2NHWC[1] == 2 && NCHW2NHWC[2] == 3;
  }

  /** The two shuffles undo each other. */
  lemma LayoutShufflesInverse()
    ensures IsPermutation(NCHW2NHWC) && IsPermutation(NHWC2NCHW)
    ensures Inverse(NCHW2NHWC) == NHWC2NCHW && Inverse(NHWC2NCHW) == NCHW2NHWC
  {
    var p := NCHW2NHWC;
    ChannelLastIsPermutation();
    InverseAfter(p, 0);
    InverseAfter(p, 1);
    InverseAfter(p, 2);
    InverseAfter(p, 3);
    assert Inverse(p) == NHWC2NCHW;
    InverseInverse(p);
  }

  /** The attributes loadLRN reads without checking for them. */
  predicate LRNArgs(dict: Dict)
  {
    HasInt(dict, "size") && HasFloat(dict, "alpha") && HasFloat(dict, "beta") && HasFloat(dict, "bias")
  }

  /** loadLRN: the input is shuffled to channel-last, normalized with half
      window size / 2, shuffled back, and only output 0 is bound. */
  function LoadLRN(st: State, op: Op, dict: Dict): (s: State)
    requires WellFormed(st) && |op.inputs| >= 1 && |op.outputs| >= 1 && LRNArgs(dict)
    ensures WellFormed(s) && Extends(st, s)
    ensures var (inV, s1) := Resolve(st, op.inputs[0]);
      var t := |s1.graph|;
      && |s.graph| == t + 3
      && s.graph[t].kind == Shuffle(NCHW2NHWC) && s.graph[t].operands == [inV]
      && s.graph[t + 1].kind.LocalResponseNorm? && s.graph[t + 1].operands == [NodeValue(t, 0)]
      && s.graph[t + 1].kind.halfWindow == ToSizeT(dict["size"].i) / 2
      && s.graph[t + 2].kind == Shuffle(NHWC2NCHW) && s.graph[t + 2].operands == [NodeValue(t + 1, 0)]
      && s.env == s1.env[op.outputs[0] := NodeValue(t + 2, 0)]
  {
    var (inV, s1) := Resolve(st, op.inputs[0]);
    var t := |s1.graph|;
    var halfWindow := ToSizeT(dict["size"].i) / 2;
    var lrn := LocalResponseNorm(halfWindow, dict["alpha"].f, dict["beta"].f, dict["bias"].f);
    var s2 := AddNode(s1, Node(Shuffle(NCHW2NHWC), op.name, [inV]));
    var s3 := AddNode(s2, Node(lrn, op.name, [NodeValue(t, 0)]));
    var s4 := AddNode(s3, Node(Shuffle(NHWC2NCHW), op.name, [NodeValue(t + 1, 0)]));
    State(s4.graph, s4.env[op.outputs[0] := NodeValue(t + 2, 0)])
  }

  // ---------------------------------------------------------------------------
  // Arithmetic with broadcast

  /** The `axis` attribute is read only when broadcasting, and then, when
      present, holds an int. */
  predicate AxisArg(dict: Dict, broadcast: bool)
  {
    var ok := broadcast ==> HasInt(dict, "axis") || "axis" !in dict;
    ok
  }

  /** The axis of the Broadcast node: the `axis` attribute, where a missing
      or -1 axis aligns the trailing dimensions. */
  function BroadcastAxis(dict: Dict, rank0: nat, rank1: nat): (axis: int)
    requires HasInt(dict, "axis") || "axis" !in dict
    ensures ("axis" !in dict || dict["axis"].i == -1) ==> axis == rank0 - rank1
    ensures ("axis" in dict && dict["axis"].i != -1) ==> axis == dict["axis"].i
  {
    var axis := IntOr(dict, "axis", -1);
    if axis == -1 then rank0 - rank1 else axis
  }

  /** The second operand of an arithmetic node.  With broadcast on, a
      Broadcast of `in1` to the extents of `in0` is appended and its result
      is the operand; with it off, `in1` is used directly.  The operand is
      taken as a node pointer either way, so it reads that node's result 0. */
  function BroadcastOperand(st: State, op: Op, dict: Dict, in0: NodeValue, in1: NodeValue, c: Collaborators)
    : (r: (NodeValue, State))
    requires WellFormed(st) && in0.node < |st.graph| && in1.node < |st.graph|
    requires AxisArg(dict, c.getBroadcast(dict))
    ensures WellFormed(r.1) && Extends(st, r.1) && r.1.env == st.env && r.0.node < |r.1.graph| && r.0.res == 0
    ensures c.getBroadcast(dict) ==>
      var d0 := c.dims0(st.graph, in0.node);
      var d1 := c.dims0(st.graph, in1.node);
      && r.1.graph == st.graph + [Node(Broadcast(d0, BroadcastAxis(dict, |d0|, |d1|)), op.name, [in1])]
      && r.0.node == |st.graph|
    ensures !c.getBroadcast(dict) ==> r.1 == st && r.0.node == in1.node
  {
    if c.getBroadcast(dict) then
      var d0 := c.dims0(st.graph, in0.node);
      var d1 := c.dims0(st.graph, in1.node);
      (NodeValue(|st.graph|, 0), AddNode(st, Node(Broadcast(d0, BroadcastAxis(dict, |d0|, |d1|)), op.name, [in1])))
    else (NodeValue(in1.node, 0), st)
  }

  /** loadArithmetic: one node of the given kind on the first input and the
      (possibly broadcast) second input. */
  function LoadArithmetic(st: State, op: Op, dict: Dict, kind: Kind, c: Collaborators): (s: State)
    requires WellFormed(st) && |op.inputs| >= 2 && kind in {Add, Mul, Sub, Div}
    requires AxisArg(dict, c.getBroadcast(dict))
    ensures WellFormed(s) && Extends(st, s)
    ensures var (in0, s1) := Resolve(st, op.inputs[0]);
      var (in1, s2) := Resolve(s1, op.inputs[1]);
      var (second, s3) := BroadcastOperand(s2, op, dict, in0, in1, c);
      && s.graph == s3.graph + [Node(kind, op.name, [in0, second])]
      && BindsOutputs(s3.env, s.env, op.outputs, ResultsOf(|s3.graph|))
  {
    var (in0, s1) := Resolve(st, op.inputs[0]);
    var (in1, s2) := Resolve(s1, op.inputs[1]);
    var (second, s3) := BroadcastOperand(s2, op, dict, in0, in1, c);
    var s4 := AddNode(s3, Node(kind, op.name, [in0, second]));
    AddNodeAsOutput(s4, op, |s3.graph|)
  }

  // ---------------------------------------------------------------------------
  // Split, Flatten, Dropout

  /** Appends `count` slice nodes of `inV` along `axis`, parts 0 .. count - 1. */
  function AddSlices(st: State, name: string, inV: NodeValue, axis: nat, split: seq<nat>,
                     count: nat, m: nat): (s: State)
    requires WellFormed(st) && inV.node < |st.graph| && m <= count
    ensures WellFormed(s) && Extends(st, s) && |s.graph| == |st.graph| + m && s.env == st.env
    ensures forall i :: 0 <= i < m ==> s.graph[|st.graph| + i] == Node(Slice(axis, split, i, count), name, [inV])
    decreases m
  {
    if m == 0 then st
    else
      var s0 := AddSlices(st, name, inV, axis, split, count, m - 1);
      var s := AddNode(s0, Node(Slice(axis, split, m - 1, count), name, [inV]));
      s
  }

  /** Output i of Split names result 0 of the i-th slice. */
  function SlicesFrom(first: nat): nat -> NodeValue
  {
    (i: nat) => NodeValue(first + i, 0)
  }

  /** The Split axis: `axis` (default 0), stored into a `size_t`. */
  function SplitAxis(dict: Dict): (axis: nat)
    requires HasInt(dict, "axis") || "axis" !in dict
    ensures "axis" !in dict ==> axis == 0
    ensures "axis" in dict && 0 <= dict["axis"].i < SizeTModulus ==> axis == dict["axis"].i
  {
    ToSizeT(IntOr(dict, "axis", 0))
  }

  /** The Split sizes: the `split` attribute when present, else none. */
  function SplitSizes(dict: Dict): seq<nat>
    requires "split" in dict ==> dict["split"].IntsArg?
  {
    if "split" in dict then seq(|dict["split"].s|, i requires 0 <= i < |dict["split"].s| => ToSizeT(dict["split"].s[i]))
    else []
  }

  /** The dictionary shapes loadSplit accepts. */
  predicate SplitArgs(dict: Dict)
  {
    ("axis" in dict ==> dict["axis"].IntArg?) && ("split" in dict ==> dict["split"].IntsArg?)
  }

  /** loadSplit: one slice per output; output i names result 0 of slice i. */
  function LoadSplit(st: State, op: Op, dict: Dict): (s: State)
    requires WellFormed(st) && |op.inputs| >= 1 && SplitArgs(dict)
    ensures WellFormed(s) && Extends(st, s)
    ensures var (inV, s1) := Resolve(st, op.inputs[0]);
      var n := |op.outputs|;
      var first := |s1.graph|;
      && |s.graph| == first + n
      && (forall j :: 0 <= j < n ==>
            s.graph[first + j] == Node(Slice(SplitAxis(dict), SplitSizes(dict), j, n), op.name, [inV]))
      && BindsOutputs(s1.env, s.env, op.outputs, SlicesFrom(first))
  {
    var (inV, s1) := Resolve(st, op.inputs[0]);
    var n := |op.outputs|;
    var s2 := AddSlices(s1, op.name, inV, SplitAxis(dict), SplitSizes(dict), n, n);
    BindAll(s2, op.outputs, SlicesFrom(|s1.graph|))
  }

  /** loadFlatten: one Flatten node at `axis`, default 1. */
  function LoadFlatten(st: State, op: Op, dict: Dict): (s: State)
    requires WellFormed(st) && |op.inputs| >= 1 && ("axis" in dict ==> dict["axis"].IntArg?)
    ensures WellFormed(s) && Extends(st, s)
    ensures var (inV, s1) := Resolve(st, op.inputs[0]);
      var axis := if "axis" in dict then dict["axis"].i else 1;
      && s.graph == s1.graph + [Node(Flatten(axis), op.name, [inV])]
      && BindsOutputs(s1.env, s.env, op.outputs, ResultsOf(|s1.graph|))
  {
    LoadUnary(st, op, Flatten(IntOr(dict, "axis", 1)))
  }

  /** loadDropout: output 0 names the input's node, result 0; no node is
      created and no other output is bound. */
  function LoadDropout(st: State, op: Op): (s: State)
    requires WellFormed(st) && |op.inputs| >= 1 && |op.outputs| >= 1
    ensures WellFormed(s) && Extends(st, s)
    ensures var (inV, s1) := Resolve(st, op.inputs[0]);
      && s.graph == s1.graph
      && op.outputs[0] in s.env && s.env[op.outputs[0]] == NodeValue(inV.node, 0)
      && (forall k :: k in s.env && k != op.outputs[0] ==> k in s1.env && s.env[k] == s1.env[k])
      && (op.inputs[0] in st.env ==> s.graph == st.graph)
  {
    var (inV, s1) := Resolve(st, op.inputs[0]);
    State(s1.graph, s1.env[op.outputs[0] := NodeValue(inV.node, 0)])
  }

  // ---------------------------------------------------------------------------
  // Reshape

  /** The first loop of loadReshape: a 0 entry takes the input's extent. */
  function KeepZeros(shape: seq<int>, oldDim: seq<nat>): (p: seq<int>)
    requires forall i :: 0 <= i < |shape| && shape[i] == 0 ==> i < |oldDim|
    ensures |p| == |shape|
  {
    seq(|shape|, i requires 0 <= i < |shape| => if shape[i] == 0 then oldDim[i] as int else shape[i])
  }

  /** The product of the entries other than -1, as the first loop builds it. */
  function KnownProduct(p: seq<int>): int
  {
    if |p| == 0 then 1
    else KnownProduct(p[..|p| - 1]) * (if p[|p| - 1] != -1 then p[|p| - 1] else 1)
  }

  /** When some entry is -1, its extent is the element count divided
      (unsigned) by the product of the others, which must not be 0. */
  predicate ReshapeArgs(shape: seq<int>, oldDim: seq<nat>)
  {
    && (forall i :: 0 <= i < |shape| && shape[i] == 0 ==> i < |oldDim|)
    && (-1 in shape ==> ToSizeT(KnownProduct(KeepZeros(shape, oldDim))) != 0)
  }

  /** The extents loadReshape computes from a `shape` attribute for an
      input of extents `oldDim` holding `size` elements. */
  function ReshapeDims(shape: seq<int>, oldDim: seq<nat>, size: nat): (r: seq<nat>)
    requires ReshapeArgs(shape, oldDim)
    ensures |r| == |shape|
  {
    var p := KeepZeros(shape, oldDim);
    var product := KnownProduct(p);
    assert forall i :: 0 <= i < |shape| && p[i] == -1 ==> shape[i] == -1;
    seq(|p|, i requires 0 <= i < |p| => if p[i] == -1 then ToSizeT(DivMod(size, ToSizeT(product)).0) else ToSizeT(p[i]))
  }

  /** Entry by entry: 0 keeps the input's extent, -1 is inferred, any other
      entry is kept. */
  lemma ReshapeDimsEntries(shape: seq<int>, oldDim: seq<nat>, size: nat, i: nat)
    requires ReshapeArgs(shape, oldDim) && i < |shape|
    requires forall j :: 0 <= j < |oldDim| ==> oldDim[j] < SizeTModulus
    requires 0 <= shape[i] < SizeTModulus || shape[i] == -1
    requires size < SizeTModulus
    ensures shape[i] == 0 ==> ReshapeDims(shape, oldDim, size)[i] == oldDim[i]
    ensures shape[i] == -1 ==>
      var d := ToSizeT(KnownProduct(KeepZeros(shape, oldDim)));
      && Index.Mul(ReshapeDims(shape, oldDim, size)[i], d) <= size < Index.Mul(ReshapeDims(shape, oldDim, size)[i] + 1, d)
    ensures shape[i] > 0 ==> ReshapeDims(shape, oldDim, size)[i] == shape[i]
  {
    var p := KeepZeros(shape, oldDim);
    var product := ToSizeT(KnownProduct(p));
    if shape[i] == -1 {
      QuotientAtMost(size, product);
      assert Index.Mul(DivMod(size, product).0 + 1, product) == Index.Mul(DivMod(size, product).0, product) + product;
    } else if shape[i] == 0 {
      assert p[i] == oldDim[i];
    } else {
      assert p[i] == shape[i];
    }
  }

  /** The quotient never exceeds the dividend. */
  lemma {:induction false} QuotientAtMost(o: nat, d: nat)
    requires d > 0
    ensures DivMod(o, d).0 <= o
    decreases o
  {
    if o >= d {
      QuotientAtMost(o - d, d);
    }
  }

  /** Product of extents. */
  function Product(s: seq<nat>): nat
  {
    if |s| == 0 then 1 else Product(s[..|s| - 1]) * s[|s| - 1]
  }

  lemma MulAssoc(a: int, b: int, c: int)
    ensures (a * b) * c == a * (b * c)
  {
  }

  /** The prefix products of the new extents, with the inferred entry `q`
      at position j, against the known product of the resolved entries. */
  lemma {:induction false} ProductWithInferred(r: seq<nat>, p: seq<int>, j: nat, q: nat, m: nat)
    requires |r| == |p| && j < |p| && m <= |p|
    requires p[j] == -1 && r[j] == q
    requires forall i :: 0 <= i < |p| && i != j ==> p[i] != -1 && r[i] == p[i]
    ensures Product(r[..m]) == (if j < m then q else 1) * KnownProduct(p[..m])
    decreases m
  {
    if m > 0 {
      assert r[..m][..m - 1] == r[..m - 1];
      assert p[..m][..m - 1] == p[..m - 1];
      ProductWithInferred(r, p, j, q, m - 1);
      var f := if j < m - 1 then q else 1;
      if m - 1 == j {
        assert Product(r[..m]) == Product(r[..m - 1]) * q;
        assert KnownProduct(p[..m]) == KnownProduct(p[..m - 1]);
      } else {
        assert Product(r[..m]) == Product(r[..m - 1]) * r[m - 1];
        assert KnownProduct(p[..m]) == KnownProduct(p[..m - 1]) * r[m - 1];
        MulAssoc(f, KnownProduct(p[..m - 1]), r[m - 1]);
      }
    }
  }

  /** With exactly one -1, every other resolved entry a positive extent,
      and the element count divisible by their product, the new extents hold
      exactly the input's elements. */
  lemma ReshapeKeepsSize(shape: seq<int>, oldDim: seq<nat>, size: nat, j: nat)
    requires ReshapeArgs(shape, oldDim)
    requires j < |shape| && shape[j] == -1
    requires forall i :: 0 <= i < |shape| && i != j ==> shape[i] != -1
    requires forall i :: 0 <= i < |shape| && i != j ==>
      0 < KeepZeros(shape, oldDim)[i] < SizeTModulus
    requires size < SizeTModulus
    requires 0 < KnownProduct(KeepZeros(shape, oldDim)) < SizeTModulus
    requires DivMod(size, KnownProduct(KeepZeros(shape, oldDim))).1 == 0
    ensures Product(ReshapeDims(shape, oldDim, size)) == size
  {
    var p := KeepZeros(shape, oldDim);
    var r := ReshapeDims(shape, oldDim, size);
    var product := KnownProduct(p);
    var q := DivMod(size, product).0;
    Index.MulIsProduct(q, product);
    QuotientAtMost(size, product);
    assert r[j] == q;
    assert forall i :: 0 <= i < |p| && i != j ==> p[i] != -1 && r[i] == p[i] by {
      forall i | 0 <= i < |p| && i != j
        ensures p[i] != -1 && r[i] == p[i]
      {
        assert p[i] > 0;
      }
    }
    ProductWithInferred(r, p, j, q, |p|);
    assert r[..|r|] == r && p[..|p|] == p;
    assert Product(r) == q * product;
  }

  /** A 24-element input reshaped to [4, -1] gets extents [4, 6]. */
  lemma ReshapeInfersExtent()
    ensures ReshapeArgs([4, -1], [2, 3, 4])
    ensures ReshapeDims([4, -1], [2, 3, 4], 24) == [4, 6]
  {
    assert KeepZeros([4, -1], [2, 3, 4]) == [4, -1];
    assert KnownProduct([4, -1]) == 4 by {
      assert [4, -1][..1] == [4];
      assert [4][..0] == [];
    }
  }

  /** A [4, 6] input reshaped to [0, 6] keeps its extents. */
  lemma ReshapeKeepsZeroEntry()
    ensures ReshapeArgs([0, 6], [4, 6])
    ensures ReshapeDims([0, 6], [4, 6], 24) == [4, 6]
  {
    assert KeepZeros([0, 6], [4, 6]) == [4, 6];
  }

  /** The extents of the operator's first input, once resolved. */
  function InputDims(st: State, op: Op, c: Collaborators): seq<nat>
    requires WellFormed(st) && |op.inputs| >= 1
  {
    var (inV, s1) := Resolve(st, op.inputs[0]);
    c.dims0(s1.graph, inV.node)
  }

  /** loadReshape: extents from the `shape` attribute, or from the weight
      tensor named by the second input; only output 0 is bound. */
  function LoadReshape(st: State, op: Op, dict: Dict, c: Collaborators): (s: State)
    requires WellFormed(st) && |op.inputs| >= 1 && |op.outputs| >= 1
    requires "shape" in dict ==> dict["shape"].IntsArg?
    requires "shape" !in dict ==> |op.inputs| >= 2
    requires "shape" in dict ==> ReshapeArgs(dict["shape"].s, InputDims(st, op, c))
    ensures WellFormed(s) && Extends(st, s)
    ensures var (inV, s1) := Resolve(st, op.inputs[0]);
      var oldDim := c.dims0(s1.graph, inV.node);
      && |s.graph| == |s1.graph| + 1 && s.graph[..|s1.graph|] == s1.graph
      && s.graph[|s1.graph|].operands == [inV] && s.graph[|s1.graph|].kind.Reshape?
      && ("shape" in dict ==> s.graph[|s1.graph|].kind.dims == ReshapeDims(dict["shape"].s, oldDim, Volume(oldDim)))
      && ("shape" !in dict ==> s.graph[|s1.graph|].kind.dims == c.tensor(op.inputs[1]))
      && s.env == s1.env[op.outputs[0] := NodeValue(|s1.graph|, 0)]
  {
    var (inV, s1) := Resolve(st, op.inputs[0]);
    var newDim :=
      if "shape" in dict then
        var oldDim := c.dims0(s1.graph, inV.node);
        ReshapeDims(dict["shape"].s, oldDim, Volume(oldDim))
      else c.tensor(op.inputs[1]);
    var s2 := AddNode(s1, Node(Reshape(newDim), op.name, [inV]));
    State(s2.graph, s2.env[op.outputs[0] := NodeValue(|s1.graph|, 0)])
  }

  // ---------------------------------------------------------------------------
  // Transpose

  /** The permutation of an empty `perm` argument: N - 1, ..., 0. */
  function ReversedAxes(n: nat): (p: seq<nat>)
    ensures |p| == n
  {
    seq(n, i requires 0 <= i < n => n - 1 - i)
  }

  /** The reversal is a permutation and is its own inverse. */
  lemma ReversedAxesSelfInverse(n: nat)
    ensures IsPermutation(ReversedAxes(n))
    ensures Inverse(ReversedAxes(n)) == ReversedAxes(n)
  {
    var p := ReversedAxes(n);
    forall a | 0 <= a < n
      ensures a in p
    {
      assert p[n - 1 - a] == a;
    }
    var q := Inverse(p);
    forall a | 0 <= a < n
      ensures q[a] == p[a]
    {
      assert p[q[a]] == a;
      assert p[n - 1 - a] == a;
    }
  }

  /** The permutation loadTranspose uses: the parsed argument, each entry
      stored into an `unsigned`, or the reversal when it is empty. */
  function TransposePerm(perm: seq<int>, rank: nat): (p: seq<nat>)
    ensures |perm| == 0 ==> p == ReversedAxes(rank)
    ensures |perm| > 0 ==> |p| == |perm|
    ensures forall i :: 0 <= i < |perm| && 0 <= perm[i] < UnsignedModulus ==> p[i] == perm[i]
  {
    if |perm| == 0 then ReversedAxes(rank)
    else seq(|perm|, i requires 0 <= i < |perm| => perm[i] % UnsignedModulus)
  }

  /** loadTranspose (the caller passes the format's argument name): one
      shuffle node, bound with addNodeAsOutput. */
  function LoadTranspose(st: State, op: Op, dict: Dict, permArgName: string, c: Collaborators): (s: State)
    requires WellFormed(st) && |op.inputs| >= 1
    requires permArgName in dict && dict[permArgName].IntsArg?
    ensures WellFormed(s) && Extends(st, s)
    ensures var (inV, s1) := Resolve(st, op.inputs[0]);
      var rank := |c.dims0(s1.graph, inV.node)|;
      && s.graph == s1.graph + [Node(Shuffle(TransposePerm(dict[permArgName].s, rank)), op.name, [inV])]
      && BindsOutputs(s1.env, s.env, op.outputs, ResultsOf(|s1.graph|))
  {
    var (inV, s1) := Resolve(st, op.inputs[0]);
    var rank := |c.dims0(s1.graph, inV.node)|;
    var s2 := AddNode(s1, Node(Shuffle(TransposePerm(dict[permArgName].s, rank)), op.name, [inV]));
    AddNodeAsOutput(s2, op, |s1.graph|)
  }

  /** An empty permutation argument transposes by the reversal of the
      input's rank, which undoes itself. */
  lemma LoadTransposeDefault(st: State, op: Op, dict: Dict, permArgName: string, c: Collaborators)
    requires WellFormed(st) && |op.inputs| >= 1
    requires permArgName in dict && dict[permArgName] == IntsArg([])
    ensures var (inV, s1) := Resolve(st, op.inputs[0]);
      var s := LoadTranspose(st, op, dict, permArgName, c);
      var p := ReversedAxes(|c.dims0(s1.graph, inV.node)|);
      && s.graph[|s1.graph|] == Node(Shuffle(p), op.name, [inV])
      && IsPermutation(p) && Inverse(p) == p
  {
    var (inV, s1) := Resolve(st, op.inputs[0]);
    ReversedAxesSelfInverse(|c.dims0(s1.graph, inV.node)|);
  }

  // ---------------------------------------------------------------------------
  // Dispatch

  /** The operator names tryLoadCommonOperator handles (Transpose is not
      among them: each format dispatches it with its own argument name). */
  const CommonOperators: set<string> :=
    {"Relu", "Sigmoid", "Sum", "Softmax", "LRN", "Mul", "Add", "Sub", "Div",
     "Split", "Reshape", "Flatten", "Dropout"}

  /** What each handler needs of the operator and its attributes. */
  predicate Loadable(st: State, typeName: string, op: Op, dict: Dict, c: Collaborators)
    requires WellFormed(st)
  {
    match typeName
    case "Relu" => |op.inputs| >= 1
    case "Sigmoid" => |op.inputs| >= 1
    case "Sum" => |op.inputs| == 2
    case "Softmax" => |op.inputs| >= 1
    case "LRN" => |op.inputs| >= 1 && |op.outputs| >= 1 && LRNArgs(dict)
    case "Mul" => |op.inputs| >= 2 && AxisArg(dict, c.getBroadcast(dict))
    case "Add" => |op.inputs| >= 2 && AxisArg(dict, c.getBroadcast(dict))
    case "Sub" => |op.inputs| >= 2 && AxisArg(dict, c.getBroadcast(dict))
    case "Div" => |op.inputs| >= 2 && AxisArg(dict, c.getBroadcast(dict))
    case "Split" => |op.inputs| >= 1 && SplitArgs(dict)
    case "Reshape" =>
      && |op.inputs| >= 1 && |op.outputs| >= 1
      && ("shape" in dict ==> dict["shape"].IntsArg?)
      && ("shape" !in dict ==> |op.inputs| >= 2)
      && ("shape" in dict ==> ReshapeArgs(dict["shape"].s, InputDims(st, op, c)))
    case "Flatten" => |op.inputs| >= 1 && ("axis" in dict ==> dict["axis"].IntArg?)
    case "Dropout" => |op.inputs| >= 1 && |op.outputs| >= 1
    case _ => true
  }

  /** tryLoadCommonOperator: whether the operator was handled, and the state after. */
  function TryLoadCommonOperator(st: State, typeName: string, op: Op, dict: Dict, c: Collaborators)
    : (r: (bool, State))
    requires WellFormed(st) && Loadable(st, typeName, op, dict, c)
    ensures WellFormed(r.1) && Extends(st, r.1)
    ensures r.0 <==> typeName in CommonOperators
    ensures !r.0 ==> r.1 == st
  {
    match typeName
    case "Relu" => (true, LoadUnary(st, op, Relu))
    case "Sigmoid" => (true, LoadUnary(st, op, Sigmoid))
    case "Sum" => (true, LoadSum(st, op))
    case "Softmax" => (true, LoadSoftmax(st, op))
    case "LRN" => (true, LoadLRN(st, op, dict))
    case "Mul" => (true, LoadArithmetic(st, op, dict, Mul, c))
    case "Add" => (true, LoadArithmetic(st, op, dict, Add, c))
    case "Sub" => (true, LoadArithmetic(st, op, dict, Sub, c))
    case "Div" => (true, LoadArithmetic(st, op, dict, Div, c))
    case "Split" => (true, LoadSplit(st, op, dict))
    case "Reshape" => (true, LoadReshape(st, op, dict, c))
    case "Flatten" => (true, LoadFlatten(st, op, dict))
    case "Dropout" => (true, LoadDropout(st, op))
    case _ => (false, st)
  }


}
