/** The GUI service (applications/gui/gui.c): list surgery on its layers, drawing and input dispatch. */
module GuiService {
  import opened GuiLayers

  datatype Key = KeyUp | KeyDown | KeyRight | KeyLeft | KeyOk | KeyBack

  /** `gui_rotate_buttons`. */
  function RotateButtons(key: Key): Key {
    match key
    case KeyUp => KeyRight
    case KeyDown => KeyLeft
    case KeyRight => KeyDown
    case KeyLeft => KeyUp
    case _ => key
  }

  /** Where a key points: right and up are positive; Ok and Back point nowhere. */
  function Direction(key: Key): (int, int) {
    match key
    case KeyUp => (0, 1)
    case KeyDown => (0, -1)
    case KeyRight => (1, 0)
    case KeyLeft => (-1, 0)
    case _ => (0, 0)
  }

  /** On a vertical port the directions are turned a quarter clockwise, and the other keys are what they are. */
  lemma KeysTurnClockwise(key: Key)
    ensures
      var (x, y) := Direction(key);
      Direction(RotateButtons(key)) == (y, -x)
    ensures key == KeyOk || key == KeyBack ==> RotateButtons(key) == key
    ensures RotateButtons(RotateButtons(RotateButtons(RotateButtons(key)))) == key
  {
  }

  /** What a redraw put on the canvas: the main content, and whether the status bar was drawn. */
  datatype Screen = Screen(main: Choice, statusBar: bool)

  datatype Delivery = Delivery(target: Choice, key: Key)

  /**
   The view ports' `gui`, `is_enabled` and `orientation` fields are kept by port: `linked`, `enabled` and
   `vertical`.
   */
  class Gui {
    var layers: Layers
    var linked: set<Port>
    var enabled: set<Port>
    var vertical: set<Port>

    ghost predicate Valid()
      reads this
    {
      |layers| == LAYER_MAX && Inv(Content())
    }

    function Content(): Stack
      reads this
    {
      Stack(layers, linked)
    }

    constructor ()
      ensures Valid() && Content() == Stack([[], [], [], [], []], {})
    {
      layers := [[], [], [], [], []];
      linked, enabled, vertical := {}, {}, {};
    }

    /** Walk the layers; `furi_assert` fails (ok is false) when the port is on one of them. */
    method VerifyNotAdded(port: Port) returns (ok: bool)
      ensures ok == (LayerOf(layers, port) == |layers|)
    {
      var i := 0;
      while i < |layers|
        invariant 0 <= i <= |layers|
        invariant forall k | 0 <= k < i :: port !in layers[k]
      {
        var it := 0;
        while it < |layers[i]|
          invariant 0 <= it <= |layers[i]|
          invariant port !in layers[i][..it]
        {
          if layers[i][it] == port {
            assert port in layers[i];
            return false;
          }
          it := it + 1;
        }
        assert layers[i][..it] == layers[i];
        i := i + 1;
      }
      return true;
    }

    /**
     `ok` is false when the layer does not exist, when the port is vertical and the layer is not the
     fullscreen one, or when the port is on a layer already.
     */
    method AddViewPort(port: Port, layer: nat) returns (ok: bool)
      requires Valid()
      modifies this`layers, this`linked
      ensures Valid()
      ensures Content() == if ok then Apply(old(Content()), Add(port, layer)) else old(Content())
      ensures ok ==
        (layer < LAYER_MAX && (layer == LAYER_FULLSCREEN || port !in vertical) && !Present(old(layers), port))
    {
      ok := layer < LAYER_MAX && (layer == LAYER_FULLSCREEN || port !in vertical);
      if ok {
        ok := VerifyNotAdded(port);
      }
      ApplyKeepsInv(Content(), Add(port, layer));
      if ok {
        layers := layers[layer := layers[layer] + [port]];
        linked := linked + {port};
      }
    }

    /** The iterator loop on one layer: removing in place keeps what a filter keeps. */
    method RemoveFromLayer(i: nat, port: Port) returns (found: bool)
      requires i < |layers|
      modifies this`layers
      ensures layers == old(layers)[i := Without(old(layers)[i], port)]
      ensures found == (port in old(layers)[i])
    {
      found := false;
      var it := 0;
      while it < |layers[i]|
        invariant |layers| == |old(layers)| && layers == old(layers)[i := layers[i]]
        invariant it <= |layers[i]| && Removing(old(layers)[i], layers[i], it, port, found)
        decreases |layers[i]| - it
      {
        RemovingStep(old(layers)[i], layers[i], it, port, found);
        if layers[i][it] == port {
          layers := layers[i := layers[i][..it] + layers[i][it + 1..]];
          found := true;
        } else {
          it := it + 1;
        }
      }
      assert layers[i][..it] == layers[i];
    }

    /** The removal loop over all layers; `layer` is where the port was, or LAYER_MAX. */
    method RemoveFromAll(port: Port) returns (layer: nat)
      requires |layers| == LAYER_MAX
      requires forall i, k | 0 <= i < k < |layers| && port in layers[i] :: port !in layers[k]
      modifies this`layers
      ensures layers == RemoveAll(old(layers), port)
      ensures layer == LayerOf(old(layers), port)
    {
      layer := LAYER_MAX;
      var i := 0;
      while i < LAYER_MAX
        invariant 0 <= i <= LAYER_MAX && |layers| == LAYER_MAX
        invariant forall k | 0 <= k < LAYER_MAX ::
          layers[k] == if k < i then Without(old(layers)[k], port) else old(layers)[k]
        invariant if layer == LAYER_MAX then forall k | 0 <= k < i :: port !in old(layers)[k]
                  else layer < i && port in old(layers)[layer]
      {
        var found := RemoveFromLayer(i, port);
        if found {
          layer := i;
        }
        i := i + 1;
      }
    }

    method RemoveViewPort(port: Port)
      requires Valid()
      modifies this`layers, this`linked
      ensures Valid() && Content() == Apply(old(Content()), Remove(port))
    {
      ApplyKeepsInv(Content(), Remove(port));
      linked := linked - {port};
      var _ := RemoveFromAll(port);
    }

    /** `ok` is false when the port is on no layer and the source's assertion fails. */
    method SendViewPortFront(port: Port) returns (ok: bool)
      requires Valid()
      modifies this`layers
      ensures Valid() && Content() == Apply(old(Content()), SendFront(port))
      ensures ok == Present(old(layers), port)
    {
      ApplyKeepsInv(Content(), SendFront(port));
      ghost var before := Content();
      var layer := RemoveFromAll(port);
      ok := layer != LAYER_MAX;
      if ok {
        layers := layers[layer := layers[layer] + [port]];
      } else {
        NothingRemoved(before, port);
      }
    }

    method SendViewPortBack(port: Port) returns (ok: bool)
      requires Valid()
      modifies this`layers
      ensures Valid() && Content() == Apply(old(Content()), SendBack(port))
      ensures ok == Present(old(layers), port)
    {
      ApplyKeepsInv(Content(), SendBack(port));
      ghost var before := Content();
      var layer := RemoveFromAll(port);
      ok := layer != LAYER_MAX;
      if ok {
        layers := layers[layer := [port] + layers[layer]];
      } else {
        NothingRemoved(before, port);
      }
    }

    /** Iterating backward. */
    method FindEnabled(layer: seq<Port>) returns (found: Choice)
      ensures found == LastEnabled(layer, enabled)
    {
      var it := |layer|;
      assert layer[..it] == layer;
      while it > 0
        invariant 0 <= it <= |layer|
        invariant LastEnabled(layer, enabled) == LastEnabled(layer[..it], enabled)
      {
        if layer[it - 1] in enabled {
          return Chosen(layer[it - 1]);
        }
        assert layer[..it][..it - 1] == layer[..it - 1];
        it := it - 1;
      }
      return Nothing;
    }

    method RedrawLayer(layer: nat) returns (drawn: Choice)
      requires Valid() && layer < LAYER_MAX
      ensures drawn == LastEnabled(layers[layer], enabled)
      ensures drawn.Chosen? ==> drawn.port in linked
    {
      drawn := FindEnabled(layers[layer]);
      assert drawn.Chosen? ==> Present(layers, drawn.port);
    }

    method Redraw() returns (screen: Screen)
      requires Valid()
      ensures screen.main == Selected(layers, enabled)
      ensures screen.statusBar == LastEnabled(layers[LAYER_FULLSCREEN], enabled).Nothing?
    {
      var fullscreen := RedrawLayer(LAYER_FULLSCREEN);
      if fullscreen.Chosen? {
        return Screen(fullscreen, false);
      }
      var main := RedrawLayer(LAYER_MAIN);
      if main.Nothing? {
        main := RedrawLayer(LAYER_NONE);
      }
      return Screen(main, true);
    }

    method Input(key: Key) returns (delivery: Delivery)
      requires Valid()
      ensures delivery.target == Selected(layers, enabled)
      ensures delivery.target.Chosen? ==> delivery.target.port in linked
      ensures delivery.key ==
        if delivery.target.Chosen? && delivery.target.port in vertical then RotateButtons(key) else key
    {
      var port := FindEnabled(layers[LAYER_FULLSCREEN]);
      if port.Nothing? {
        port := FindEnabled(layers[LAYER_MAIN]);
      }
      if port.Nothing? {
        port := FindEnabled(layers[LAYER_NONE]);
      }
      if port.Chosen? {
        SelectedIsLinked(Content(), enabled);
      }
      delivery := Delivery(port, if port.Chosen? && port.port in vertical then RotateButtons(key) else key);
    }
  }

  /** Where an in-place removal from `all` stands: `layer` is what is left, searched up to `it`. */
  ghost predicate Removing(all: seq<Port>, layer: seq<Port>, it: nat, port: Port, found: bool)
    requires it <= |layer|
  {
    && port !in layer[..it]
    && Without(layer, port) == Without(all, port)
    && (port in all <==> found || port in layer[it..])
  }

  lemma RemovingStep(all: seq<Port>, layer: seq<Port>, it: nat, port: Port, found: bool)
    requires it < |layer| && Removing(all, layer, it, port, found)
    ensures layer[it] == port ==> Removing(all, layer[..it] + layer[it + 1..], it, port, true)
    ensures layer[it] != port ==> Removing(all, layer, it + 1, port, found)
  {
    var head, tail := layer[..it], layer[it + 1..];
    assert layer[it..] == [layer[it]] + tail && layer == head + layer[it..];
    if layer[it] == port {
      WithoutConcat(head, [port] + tail, port);
      WithoutConcat([port], tail, port);
      WithoutConcat(head, tail, port);
      assert (head + tail)[..it] == head;
    } else {
      assert layer[..it + 1] == head + [layer[it]];
    }
  }

  lemma NothingRemoved(s: Stack, port: Port)
    requires Inv(s) && !Present(s.layers, port)
    ensures RemoveAll(s.layers, port) == s.layers && LayerOf(s.layers, port) == |s.layers|
  {
    forall i: nat | i < |s.layers| ensures Without(s.layers[i], port) == s.layers[i] {
      assert port !in s.layers[i];
    }
  }
}
