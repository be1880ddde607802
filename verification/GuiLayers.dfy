/**
 The layer stack of the GUI (applications/gui/gui.c) as values: which view ports are on which layer,
 in which order, and which are linked to the gui.
 */
module GuiLayers {

  const LAYER_NONE := 0
  const LAYER_STATUS_BAR_LEFT := 1
  const LAYER_STATUS_BAR_RIGHT := 2
  const LAYER_MAIN := 3
  const LAYER_FULLSCREEN := 4
  const LAYER_MAX := 5

  /** View ports are told apart by their address. */
  type Port = int

  type Layers = seq<seq<Port>>

  /** The ports of a layer without `p`, in the same order. */
  function Without(layer: seq<Port>, p: Port): (r: seq<Port>)
    ensures p !in r && |r| <= |layer|
    ensures forall q | q != p :: q in r <==> q in layer
    ensures p !in layer ==> r == layer
  {
    if layer == [] then []
    else if layer[0] == p then Without(layer[1..], p)
    else [layer[0]] + Without(layer[1..], p)
  }

  lemma {:induction false} WithoutConcat(a: seq<Port>, b: seq<Port>, p: Port)
    ensures Without(a + b, p) == Without(a, p) + Without(b, p)
  {
    if a == [] {
      assert a + b == b;
    } else {
      assert (a + b)[1..] == a[1..] + b;
      WithoutConcat(a[1..], b, p);
    }
  }

  predicate Present(layers: Layers, p: Port) {
    exists i | 0 <= i < |layers| :: p in layers[i]
  }

  /** The first layer that holds `p`, or the number of layers. */
  function LayerOf(layers: Layers, p: Port): (i: nat)
    ensures i <= |layers|
    ensures i < |layers| ==> p in layers[i]
    ensures forall k | 0 <= k < i :: p !in layers[k]
  {
    if layers == [] || p in layers[0] then 0 else 1 + LayerOf(layers[1..], p)
  }

  function RemoveAll(layers: Layers, p: Port): (r: Layers)
    ensures |r| == |layers|
    ensures forall i | 0 <= i < |layers| :: r[i] == Without(layers[i], p)
  {
    seq(|layers|, i requires 0 <= i < |layers| => Without(layers[i], p))
  }

  datatype Stack = Stack(layers: Layers, linked: set<Port>)

  datatype Operation = Add(port: Port, layer: nat) | Remove(port: Port) | SendFront(port: Port) | SendBack(port: Port)

  /** The operations. A failed assertion of the source leaves the stack alone. */
  function Apply(s: Stack, op: Operation): Stack {
    var p := op.port;
    var at := LayerOf(s.layers, p);
    match op
    case Add(_, layer) =>
      if at < |s.layers| || layer >= |s.layers| then s
      else Stack(s.layers[layer := s.layers[layer] + [p]], s.linked + {p})
    case Remove(_) => Stack(RemoveAll(s.layers, p), s.linked - {p})
    case SendFront(_) =>
      if at == |s.layers| then s
      else s.(layers := RemoveAll(s.layers, p)[at := Without(s.layers[at], p) + [p]])
    case SendBack(_) =>
      if at == |s.layers| then s
      else s.(layers := RemoveAll(s.layers, p)[at := [p] + Without(s.layers[at], p)])
  }

  function ApplyAll(s: Stack, ops: seq<Operation>): Stack
    decreases |ops|
  {
    if ops == [] then s else ApplyAll(Apply(s, ops[0]), ops[1..])
  }

  ghost predicate Distinct(layer: seq<Port>) {
    forall i, j | 0 <= i < j < |layer| :: layer[i] != layer[j]
  }

  /** Each port occurs at most once across all layers, and is linked exactly when it occurs. */
  ghost predicate Inv(s: Stack) {
    && (forall i | 0 <= i < |s.layers| :: Distinct(s.layers[i]))
    && (forall i, k, p | 0 <= i < k < |s.layers| && p in s.layers[i] :: p !in s.layers[k])
    && (forall p :: p in s.linked <==> Present(s.layers, p))
  }

  lemma {:induction false} WithoutDistinct(layer: seq<Port>, p: Port)
    requires Distinct(layer)
    ensures Distinct(Without(layer, p))
  {
    if layer != [] {
      assert Distinct(layer[1..]);
      WithoutDistinct(layer[1..], p);
      var r := Without(layer[1..], p);
      assert layer[0] !in layer[1..];
      if layer[0] != p {
        assert layer[0] !in r;
      }
    }
  }

  lemma WithoutOthers(s: Stack, p: Port, i: nat)
    requires Inv(s) && i < |s.layers| && i != LayerOf(s.layers, p)
    ensures Without(s.layers[i], p) == s.layers[i]
  {
    var at := LayerOf(s.layers, p);
    assert at < |s.layers| ==> p in s.layers[at];
  }

  /** A layer as it was, without `p`, or without `p` but for one of its ends. */
  predicate Rearranged(before: seq<Port>, now: seq<Port>, p: Port) {
    var rest := Without(before, p);
    now == before || now == rest || now == rest + [p] || now == [p] + rest
  }

  lemma RearrangedKeepsOthers(before: seq<Port>, now: seq<Port>, p: Port)
    requires Rearranged(before, now, p)
    ensures Without(now, p) == Without(before, p)
  {
    var rest := Without(before, p);
    assert Without([p], p) == [];
    if now == rest + [p] {
      WithoutConcat(rest, [p], p);
    } else if now == [p] + rest {
      WithoutConcat([p], rest, p);
    }
  }

  lemma RearrangedIsDistinct(before: seq<Port>, now: seq<Port>, p: Port)
    requires Distinct(before) && Rearranged(before, now, p)
    ensures Distinct(now)
  {
    WithoutDistinct(before, p);
    EndsDistinct(Without(before, p), p);
  }

  lemma EndsDistinct(rest: seq<Port>, p: Port)
    requires Distinct(rest) && p !in rest
    ensures Distinct(rest + [p]) && Distinct([p] + rest)
  {
  }

  lemma LayerAfter(s: Stack, op: Operation, i: nat)
    requires Inv(s) && i < |s.layers|
    ensures |Apply(s, op).layers| == |s.layers|
    ensures Rearranged(s.layers[i], Apply(s, op).layers[i], op.port)
    ensures Without(Apply(s, op).layers[i], op.port) == Without(s.layers[i], op.port)
    ensures Distinct(Apply(s, op).layers[i])
  {
    RearrangedKeepsOthers(s.layers[i], Apply(s, op).layers[i], op.port);
    RearrangedIsDistinct(s.layers[i], Apply(s, op).layers[i], op.port);
  }

  /** Where `p` is after the operation: on one layer or on none. */
  lemma PortAfter(s: Stack, op: Operation, i: nat, k: nat)
    requires Inv(s) && i < k < |s.layers|
    ensures op.port !in Apply(s, op).layers[i] || op.port !in Apply(s, op).layers[k]
  {
  }

  lemma ApplyKeepsInv(s: Stack, op: Operation)
    requires Inv(s)
    ensures Inv(Apply(s, op))
  {
    var s' := Apply(s, op);
    var p := op.port;
    forall i: nat | i < |s'.layers| ensures Distinct(s'.layers[i]) {
      LayerAfter(s, op, i);
    }
    forall i: nat, q | i < |s.layers| && q != p ensures q in s'.layers[i] <==> q in s.layers[i] {
      LayerAfter(s, op, i);
    }
    forall i, k, q | 0 <= i < k < |s'.layers| && q in s'.layers[i] ensures q !in s'.layers[k] {
      if q == p {
        PortAfter(s, op, i, k);
      }
    }
    forall q ensures q in s'.linked <==> Present(s'.layers, q) {
      if q == p {
        LinkAfter(s, op);
      } else {
        assert Present(s'.layers, q) <==> Present(s.layers, q);
      }
    }
  }

  lemma LinkAfter(s: Stack, op: Operation)
    requires Inv(s)
    ensures op.port in Apply(s, op).linked <==> Present(Apply(s, op).layers, op.port)
  {
    var s', p, at := Apply(s, op), op.port, LayerOf(s.layers, op.port);
    assert p in s.linked <==> at < |s.layers|;
    match op
    case Add(_, layer) =>
      if at == |s.layers| && layer < |s.layers| {
        assert p in s'.layers[layer];
      }
    case Remove(_) =>
    case SendFront(_) =>
      if at < |s.layers| {
        assert p in s'.layers[at];
      }
    case SendBack(_) =>
      if at < |s.layers| {
        assert p in s'.layers[at];
      }
  }

  /**
   Layer stack invariant over every run of add, remove, send-front and send-back: each view port occurs
   at most once across all layers and is linked exactly when it occurs.
   */
  lemma {:induction false} RunKeepsInv(s: Stack, ops: seq<Operation>)
    requires Inv(s)
    ensures Inv(ApplyAll(s, ops)) && |ApplyAll(s, ops).layers| == |s.layers|
    decreases |ops|
  {
    if ops != [] {
      ApplyKeepsInv(s, ops[0]);
      RunKeepsInv(Apply(s, ops[0]), ops[1..]);
    }
  }

  /** In every run from the empty layers each port occurs at most once, and is linked iff it occurs. */
  lemma PortsOccurOnce(ops: seq<Operation>)
    ensures Inv(ApplyAll(Stack([[], [], [], [], []], {}), ops))
  {
    RunKeepsInv(Stack([[], [], [], [], []], {}), ops);
  }

  /** The ports of a layer that are not in `touched`, in order. */
  function Untouched(layer: seq<Port>, touched: set<Port>): seq<Port> {
    if layer == [] then []
    else if layer[0] in touched then Untouched(layer[1..], touched)
    else [layer[0]] + Untouched(layer[1..], touched)
  }

  lemma {:induction false} UntouchedWithout(layer: seq<Port>, touched: set<Port>, p: Port)
    requires p in touched
    ensures Untouched(Without(layer, p), touched) == Untouched(layer, touched)
  {
    if layer != [] {
      UntouchedWithout(layer[1..], touched, p);
      if layer[0] != p {
        assert ([layer[0]] + Without(layer[1..], p))[1..] == Without(layer[1..], p);
      }
    }
  }

  /** No run changes which ports it does not touch are on a layer, nor their order. */
  lemma {:induction false} OthersKeepOrder(s: Stack, ops: seq<Operation>, touched: set<Port>, i: nat)
    requires Inv(s) && i < |s.layers|
    requires forall k | 0 <= k < |ops| :: ops[k].port in touched
    ensures |ApplyAll(s, ops).layers| == |s.layers|
    ensures Untouched(ApplyAll(s, ops).layers[i], touched) == Untouched(s.layers[i], touched)
    decreases |ops|
  {
    if ops != [] {
      var s', p := Apply(s, ops[0]), ops[0].port;
      LayerAfter(s, ops[0], i);
      UntouchedWithout(s.layers[i], touched, p);
      UntouchedWithout(s'.layers[i], touched, p);
      ApplyKeepsInv(s, ops[0]);
      OthersKeepOrder(s', ops[1..], touched, i);
    }
  }

  /** A port sent to the front is the last of its layer, one sent to the back the first. */
  lemma SentToTheEnd(s: Stack, p: Port)
    requires Inv(s) && Present(s.layers, p)
    ensures
      var at := LayerOf(s.layers, p);
      && at < |s.layers|
      && Apply(s, SendFront(p)).layers[at] == Without(s.layers[at], p) + [p]
      && Apply(s, SendBack(p)).layers[at] == [p] + Without(s.layers[at], p)
      && forall i | 0 <= i < |s.layers| && i != at ::
           Apply(s, SendFront(p)).layers[i] == Apply(s, SendBack(p)).layers[i] == s.layers[i]
  {
    forall i: nat | i < |s.layers| && i != LayerOf(s.layers, p) ensures Without(s.layers[i], p) == s.layers[i] {
      WithoutOthers(s, p, i);
    }
  }

  // ----- What is shown and what gets the input

  datatype Choice = Nothing | Chosen(port: Port)

  /** The enabled port nearest to the front of a layer. */
  function LastEnabled(layer: seq<Port>, enabled: set<Port>): (r: Choice)
    ensures r.Nothing? <==> forall i | 0 <= i < |layer| :: layer[i] !in enabled
    ensures r.Chosen? ==> r.port in enabled && r.port in layer
  {
    if layer == [] then Nothing
    else if layer[|layer| - 1] in enabled then Chosen(layer[|layer| - 1])
    else LastEnabled(layer[..|layer| - 1], enabled)
  }

  /** A selected port is on a layer, so it is linked and the gui may draw it and send it input. */
  lemma SelectedIsLinked(s: Stack, enabled: set<Port>)
    requires Inv(s) && |s.layers| == LAYER_MAX && Selected(s.layers, enabled).Chosen?
    ensures Selected(s.layers, enabled).port in s.linked * enabled
  {
    var p := Selected(s.layers, enabled).port;
    assert p in s.layers[LAYER_FULLSCREEN] || p in s.layers[LAYER_MAIN] || p in s.layers[LAYER_NONE];
    assert Present(s.layers, p);
  }

  /** Fullscreen before main before none; the other layers never count. */
  function Selected(layers: Layers, enabled: set<Port>): Choice
    requires |layers| == LAYER_MAX
  {
    var fullscreen := LastEnabled(layers[LAYER_FULLSCREEN], enabled);
    var main := LastEnabled(layers[LAYER_MAIN], enabled);
    if fullscreen.Chosen? then fullscreen
    else if main.Chosen? then main
    else LastEnabled(layers[LAYER_NONE], enabled)
  }

  ghost predicate NoneEnabled(layer: seq<Port>, enabled: set<Port>) {
    forall i | 0 <= i < |layer| :: layer[i] !in enabled
  }

  ghost predicate ClearAfter(layer: seq<Port>, enabled: set<Port>, i: int) {
    forall j | i < j < |layer| && 0 <= j :: layer[j] !in enabled
  }

  /** `p` is enabled, on the layer, and nothing in front of it there is enabled. */
  ghost predicate OnTop(layer: seq<Port>, enabled: set<Port>, p: Port) {
    exists i | 0 <= i < |layer| :: layer[i] == p && p in enabled && ClearAfter(layer, enabled, i)
  }

  lemma {:induction false} LastEnabledIsOnTop(layer: seq<Port>, enabled: set<Port>, p: Port)
    ensures LastEnabled(layer, enabled) == Chosen(p) <==> OnTop(layer, enabled, p)
  {
    if layer != [] {
      var n := |layer| - 1;
      LastEnabledIsOnTop(layer[..n], enabled, p);
      assert layer[n] in enabled ==> ClearAfter(layer, enabled, n);
      assert forall i | 0 <= i < n ::
        ClearAfter(layer, enabled, i) <==> layer[n] !in enabled && ClearAfter(layer[..n], enabled, i);
    }
  }

  /** The selection in the source's words: the top enabled port of the first layer that has one. */
  lemma SelectedIsTopmost(layers: Layers, enabled: set<Port>, p: Port)
    requires |layers| == LAYER_MAX
    ensures Selected(layers, enabled) == Chosen(p) <==>
      || OnTop(layers[LAYER_FULLSCREEN], enabled, p)
      || (NoneEnabled(layers[LAYER_FULLSCREEN], enabled) && OnTop(layers[LAYER_MAIN], enabled, p))
      || (&& NoneEnabled(layers[LAYER_FULLSCREEN], enabled) && NoneEnabled(layers[LAYER_MAIN], enabled)
          && OnTop(layers[LAYER_NONE], enabled, p))
  {
    LastEnabledIsOnTop(layers[LAYER_FULLSCREEN], enabled, p);
    LastEnabledIsOnTop(layers[LAYER_MAIN], enabled, p);
    LastEnabledIsOnTop(layers[LAYER_NONE], enabled, p);
  }

  /**
   A port that is added goes in front of the others of its layer and leaves the other layers alone; if it is
   enabled it is on top there, and on the fullscreen layer it is what is shown.
   */
  lemma AddedGoesInFront(s: Stack, p: Port, layer: nat, enabled: set<Port>)
    requires Inv(s) && |s.layers| == LAYER_MAX && !Present(s.layers, p) && layer < LAYER_MAX
    ensures
      var after := Apply(s, Add(p, layer));
      && |after.layers| == LAYER_MAX && after.linked == s.linked + {p}
      && after.layers[layer] == s.layers[layer] + [p]
      && (forall i | 0 <= i < LAYER_MAX && i != layer :: after.layers[i] == s.layers[i])
      && (p in enabled ==> OnTop(after.layers[layer], enabled, p))
      && (p in enabled && layer == LAYER_FULLSCREEN ==> Selected(after.layers, enabled) == Chosen(p))
  {
    var after := Apply(s, Add(p, layer));
    assert LayerOf(s.layers, p) == |s.layers|;
    if p in enabled {
      assert after.layers[layer][|s.layers[layer]|] == p && ClearAfter(after.layers[layer], enabled, |s.layers[layer]|);
      LastEnabledIsOnTop(after.layers[layer], enabled, p);
    }
  }

  /** A port that is removed is on no layer and not linked, and so neither shown nor sent input any more. */
  lemma RemovedIsGone(s: Stack, p: Port, enabled: set<Port>)
    requires Inv(s) && |s.layers| == LAYER_MAX
    ensures
      var after := Apply(s, Remove(p));
      && !Present(after.layers, p) && after.linked == s.linked - {p}
      && |after.layers| == LAYER_MAX && Selected(after.layers, enabled) != Chosen(p)
  {
    var after := Apply(s, Remove(p));
    ApplyKeepsInv(s, Remove(p));
    if Selected(after.layers, enabled) == Chosen(p) {
      SelectedIsLinked(after, enabled);
    }
  }
}
