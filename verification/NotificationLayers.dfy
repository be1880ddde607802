/**
 The notification service (applications/notification/notification-app.c) as a function: every light
 has an internal layer and a notification layer on top of it, and message sequences write to them.
 The brightness settings are two arbitrary functions on bytes.
 */
module NotificationLayers {

  type U8 = x: int | 0 <= x < 256

  datatype Layer = Internal | Notification

  /** One light: its two layer values, the layer on show and the level the hardware was last set to. */
  datatype Lamp = Lamp(internal: U8, overlay: U8, index: Layer, light: U8) {
    predicate Coherent() {
      light == if index == Internal then internal else overlay
    }

    function ApplyInternal(value: U8): Lamp {
      this.(internal := value, light := if index == Internal then value else light)
    }

    function ApplyNotification(value: U8): Lamp {
      this.(index := Notification, overlay := value, light := value)
    }

    function ResetNotification(): Lamp {
      this.(overlay := 0, index := Internal, light := internal)
    }
  }

  datatype Colour = Red | Green | Blue

  datatype Message =
    | LedDisplay(value: U8)
    | Led(colour: Colour, value: U8)
    | Vibro(on: bool)
    | SoundOn
    | SoundOff
    | Delay(length: nat)
    | DoNotReset

  /** The bits of `reset_mask`. */
  datatype Channel = Light(colour: Colour) | VibroMotor | Speaker | Backlight

  datatype Rgb<T> = Rgb(red: T, green: T, blue: T) {
    function At(c: Colour): T {
      match c case Red => red case Green => green case Blue => blue
    }

    function Set(c: Colour, v: T): (r: Rgb<T>)
      ensures r.At(c) == v && forall d: Colour | d != c :: r.At(d) == At(d)
    {
      match c case Red => this.(red := v) case Green => this.(green := v) case Blue => this.(blue := v)
    }
  }

  /** What the board looked like during a wait; `asked` for the waits that a Delay message asks for. */
  datatype Frame = Frame(asked: bool, length: nat, display: Lamp, leds: Rgb<Lamp>)

  datatype Settings = Settings(displayBrightness: U8 -> U8, ledBrightness: U8 -> U8)

  datatype Board = Board(
    display: Lamp, leds: Rgb<Lamp>, vibro: bool, sound: bool, displayTimer: bool, frames: seq<Frame>)

  /** The local variables of `notification_process_notification_message`. */
  datatype Session = Session(ledActive: bool, values: Rgb<U8>, reset: bool, mask: set<Channel>)

  const MINIMAL_DELAY := 100

  function Start(): Session {
    Session(false, Rgb(0, 0, 0), true, {})
  }

  function Wait(b: Board, asked: bool, length: nat): Board {
    b.(frames := b.frames + [Frame(asked, length, b.display, b.leds)])
  }

  predicate AnyLedInternalAndNotEmpty(leds: Rgb<Lamp>) {
    && (leds.red.index == Internal || leds.green.index == Internal || leds.blue.index == Internal)
    && (leds.red.internal != 0 || leds.green.internal != 0 || leds.blue.internal != 0)
  }

  function ApplyLeds(s: Settings, b: Board, values: Rgb<U8>): Board {
    b.(leds := Rgb(
      b.leds.red.ApplyNotification(s.displayBrightness(values.red)),
      b.leds.green.ApplyNotification(s.displayBrightness(values.green)),
      b.leds.blue.ApplyNotification(s.displayBrightness(values.blue))))
  }

  const ALL_LEDS := {Light(Red), Light(Green), Light(Blue)}

  /** One turn of the notification interpreter's loop. */
  function Turn(s: Settings, b: Board, n: Session, m: Message): (Board, Session) {
    match m
    case LedDisplay(value) =>
      (if value > 0 then b.(display := b.display.ApplyNotification(s.displayBrightness(value)))
       else b.(display := b.display.ResetNotification(), displayTimer := false),
       n.(mask := n.mask + {Backlight}))
    case Led(colour, value) =>
      (b, n.(ledActive := true, values := n.values.Set(colour, value), mask := n.mask + {Light(colour)}))
    case Vibro(on) => (b.(vibro := on), n.(mask := n.mask + {VibroMotor}))
    case SoundOn => (b.(sound := true), n.(mask := n.mask + {Speaker}))
    case SoundOff => (b.(sound := false), n.(mask := n.mask + {Speaker}))
    case Delay(length) =>
      if !n.ledActive then (Wait(b, true, length), n) else
      var b1 := if AnyLedInternalAndNotEmpty(b.leds)
                then Wait(ApplyLeds(s, b, Rgb(0, 0, 0)), false, MINIMAL_DELAY) else b;
      (Wait(ApplyLeds(s, b1, n.values), true, length), n.(ledActive := false, mask := n.mask + ALL_LEDS))
    case DoNotReset => (b, n.(reset := false))
  }

  function ResetLayer(b: Board, mask: set<Channel>): Board {
    b.(
      leds := Rgb(
        if Light(Red) in mask then b.leds.red.ResetNotification() else b.leds.red,
        if Light(Green) in mask then b.leds.green.ResetNotification() else b.leds.green,
        if Light(Blue) in mask then b.leds.blue.ResetNotification() else b.leds.blue),
      vibro := VibroMotor !in mask && b.vibro,
      sound := Speaker !in mask && b.sound,
      displayTimer := Backlight in mask || b.displayTimer)
  }

  /** What follows the loop up to the reset: the LEDs that no Delay has sent. */
  function Flush(s: Settings, b: Board, n: Session): (Board, Session) {
    if !n.ledActive then (b, n) else
    var b1 := ApplyLeds(s, b, n.values);
    (if AnyLedInternalAndNotEmpty(b.leds)
     then Wait(ApplyLeds(s, b1, Rgb(0, 0, 0)), false, MINIMAL_DELAY) else b1,
     n.(ledActive := false, mask := n.mask + ALL_LEDS))
  }

  function Finish(s: Settings, b: Board, n: Session): Board {
    var (b1, n1) := Flush(s, b, n);
    if n1.reset then ResetLayer(b1, n1.mask) else b1
  }

  function Turns(s: Settings, b: Board, msgs: seq<Message>): (Board, Session) {
    if msgs == [] then (b, Start()) else
    var (b1, n1) := Turns(s, b, msgs[..|msgs| - 1]);
    Turn(s, b1, n1, msgs[|msgs| - 1])
  }

  lemma TurnsNext(s: Settings, b: Board, msgs: seq<Message>, i: nat)
    requires i < |msgs|
    ensures
      var (b1, n1) := Turns(s, b, msgs[..i]);
      Turns(s, b, msgs[..i + 1]) == Turn(s, b1, n1, msgs[i])
  {
    assert msgs[..i + 1][..i] == msgs[..i];
  }

  /** A whole notification sequence. */
  function Notify(s: Settings, b: Board, msgs: seq<Message>): Board {
    var (b1, n1) := Turns(s, b, msgs);
    Finish(s, b1, n1)
  }

  function InternalTurn(s: Settings, b: Board, m: Message): Board {
    match m
    case LedDisplay(value) => b.(display := b.display.ApplyInternal(s.displayBrightness(value)))
    case Led(colour, value) =>
      b.(leds := b.leds.Set(colour, b.leds.At(colour).ApplyInternal(s.ledBrightness(value))))
    case _ => b
  }

  /** A whole internal sequence. */
  function WriteInternal(s: Settings, b: Board, msgs: seq<Message>): Board {
    if msgs == [] then b else InternalTurn(s, WriteInternal(s, b, msgs[..|msgs| - 1]), msgs[|msgs| - 1])
  }

  datatype Request = NotificationRequest(msgs: seq<Message>) | InternalRequest(msgs: seq<Message>)

  function Serve(s: Settings, b: Board, r: Request): Board {
    match r
    case NotificationRequest(msgs) => Notify(s, b, msgs)
    case InternalRequest(msgs) => WriteInternal(s, b, msgs)
  }

  function ServeAll(s: Settings, b: Board, rs: seq<Request>): Board {
    if rs == [] then b else Serve(s, ServeAll(s, b, rs[..|rs| - 1]), rs[|rs| - 1])
  }

  // ----- Every light shows the layer it is on

  predicate Coherent(display: Lamp, leds: Rgb<Lamp>) {
    display.Coherent() && leds.red.Coherent() && leds.green.Coherent() && leds.blue.Coherent()
  }

  /** The lights show their layers now and did so during every wait. */
  ghost predicate Good(b: Board) {
    Coherent(b.display, b.leds) && forall f | f in b.frames :: Coherent(f.display, f.leds)
  }

  lemma WaitKeepsGood(b: Board, asked: bool, length: nat)
    requires Good(b)
    ensures Good(Wait(b, asked, length))
  {
  }

  lemma ApplyKeepsGood(s: Settings, b: Board, values: Rgb<U8>)
    requires Good(b)
    ensures Good(ApplyLeds(s, b, values))
  {
  }

  lemma DelayKeepsGood(s: Settings, b: Board, n: Session, length: nat)
    requires Good(b)
    ensures Good(Turn(s, b, n, Delay(length)).0)
  {
    WaitKeepsGood(b, true, length);
    var off := ApplyLeds(s, b, Rgb(0, 0, 0));
    ApplyKeepsGood(s, b, Rgb(0, 0, 0));
    WaitKeepsGood(off, false, MINIMAL_DELAY);
    var b1 := if AnyLedInternalAndNotEmpty(b.leds) then Wait(off, false, MINIMAL_DELAY) else b;
    ApplyKeepsGood(s, b1, n.values);
    WaitKeepsGood(ApplyLeds(s, b1, n.values), true, length);
  }

  lemma TurnKeepsGood(s: Settings, b: Board, n: Session, m: Message)
    requires Good(b)
    ensures Good(Turn(s, b, n, m).0)
  {
    if m.Delay? {
      DelayKeepsGood(s, b, n, m.length);
    }
  }

  lemma FinishKeepsGood(s: Settings, b: Board, n: Session)
    requires Good(b)
    ensures Good(Finish(s, b, n))
  {
    var b1 := ApplyLeds(s, b, n.values);
    ApplyKeepsGood(s, b, n.values);
    ApplyKeepsGood(s, b1, Rgb(0, 0, 0));
    WaitKeepsGood(ApplyLeds(s, b1, Rgb(0, 0, 0)), false, MINIMAL_DELAY);
    assert Good(Flush(s, b, n).0);
  }

  lemma {:induction false} TurnsKeepGood(s: Settings, b: Board, msgs: seq<Message>)
    requires Good(b)
    ensures Good(Turns(s, b, msgs).0)
  {
    if msgs != [] {
      var (b1, n1) := Turns(s, b, msgs[..|msgs| - 1]);
      TurnsKeepGood(s, b, msgs[..|msgs| - 1]);
      TurnKeepsGood(s, b1, n1, msgs[|msgs| - 1]);
    }
  }

  lemma {:induction false} InternalKeepsGood(s: Settings, b: Board, msgs: seq<Message>)
    requires Good(b)
    ensures Good(WriteInternal(s, b, msgs))
  {
    if msgs != [] {
      InternalKeepsGood(s, b, msgs[..|msgs| - 1]);
    }
  }

  // ----- The internal layer is written by internal requests only

  datatype Target = Display | Of(colour: Colour)

  function LampOf(b: Board, t: Target): Lamp {
    match t case Display => b.display case Of(c) => b.leds.At(c)
  }

  /** The last internal write that a sequence makes to a light, `initial` when it makes none. */
  function LastWrite(s: Settings, msgs: seq<Message>, t: Target, initial: U8): U8 {
    if msgs == [] then initial else
    match (msgs[|msgs| - 1], t)
    case (LedDisplay(v), Display) => s.displayBrightness(v)
    case (Led(c, v), Of(d)) =>
      if c == d then s.ledBrightness(v) else LastWrite(s, msgs[..|msgs| - 1], t, initial)
    case _ => LastWrite(s, msgs[..|msgs| - 1], t, initial)
  }

  function LastInternal(s: Settings, rs: seq<Request>, t: Target, initial: U8): U8 {
    if rs == [] then initial else
    var before := LastInternal(s, rs[..|rs| - 1], t, initial);
    match rs[|rs| - 1]
    case InternalRequest(msgs) => LastWrite(s, msgs, t, before)
    case NotificationRequest(_) => before
  }

  lemma {:induction false} InternalWritesLast(s: Settings, b: Board, msgs: seq<Message>, t: Target)
    ensures LampOf(WriteInternal(s, b, msgs), t).internal == LastWrite(s, msgs, t, LampOf(b, t).internal)
  {
    if msgs != [] {
      InternalWritesLast(s, b, msgs[..|msgs| - 1], t);
    }
  }

  lemma TurnKeepsInternal(s: Settings, b: Board, n: Session, m: Message, t: Target)
    ensures LampOf(Turn(s, b, n, m).0, t).internal == LampOf(b, t).internal
  {
  }

  lemma {:induction false} TurnsKeepInternal(s: Settings, b: Board, msgs: seq<Message>, t: Target)
    ensures LampOf(Turns(s, b, msgs).0, t).internal == LampOf(b, t).internal
  {
    if msgs != [] {
      var (b1, n1) := Turns(s, b, msgs[..|msgs| - 1]);
      TurnsKeepInternal(s, b, msgs[..|msgs| - 1], t);
      TurnKeepsInternal(s, b1, n1, msgs[|msgs| - 1], t);
    }
  }

  lemma NotifyKeepsInternal(s: Settings, b: Board, msgs: seq<Message>, t: Target)
    ensures LampOf(Notify(s, b, msgs), t).internal == LampOf(b, t).internal
  {
    TurnsKeepInternal(s, b, msgs, t);
  }

  /**
   Two-layer refinement. After any run of requests each light shows its notification value while it is
   on the notification layer, and otherwise the last internal value written to it.
   */
  lemma {:induction false} LightsShowTheirLayer(s: Settings, b: Board, rs: seq<Request>, t: Target)
    requires Good(b)
    ensures
      var lamp := LampOf(ServeAll(s, b, rs), t);
      && lamp.internal == LastInternal(s, rs, t, LampOf(b, t).internal)
      && lamp.light == (if lamp.index == Notification then lamp.overlay
                        else LastInternal(s, rs, t, LampOf(b, t).internal))
    ensures Good(ServeAll(s, b, rs))
  {
    if rs != [] {
      LightsShowTheirLayer(s, b, rs[..|rs| - 1], t);
      var before := ServeAll(s, b, rs[..|rs| - 1]);
      match rs[|rs| - 1] {
        case NotificationRequest(msgs) =>
          NotifyKeepsInternal(s, before, msgs, t);
          TurnsKeepGood(s, before, msgs);
          FinishKeepsGood(s, Turns(s, before, msgs).0, Turns(s, before, msgs).1);
        case InternalRequest(msgs) =>
          InternalWritesLast(s, before, msgs, t);
          InternalKeepsGood(s, before, msgs);
      }
    }
  }

  // ----- Batched LED writes

  predicate HasLed(msgs: seq<Message>) {
    exists m :: m in msgs && m.Led?
  }

  /** The last value that the sequence gives a colour, zero when it gives none. */
  function Latest(msgs: seq<Message>, c: Colour): U8 {
    if msgs == [] then 0
    else if msgs[|msgs| - 1].Led? && msgs[|msgs| - 1].colour == c then msgs[|msgs| - 1].value
    else Latest(msgs[..|msgs| - 1], c)
  }

  predicate ShowsLatest(s: Settings, leds: Rgb<Lamp>, msgs: seq<Message>, c: Colour) {
    leds.At(c).index == Notification && leds.At(c).light == s.displayBrightness(Latest(msgs, c))
  }

  /** What the loop has done after `msgs`, for one colour. */
  predicate LoopInv(s: Settings, b: Board, msgs: seq<Message>, c: Colour) {
    var (b1, n1) := Turns(s, b, msgs);
    && n1.values.At(c) == Latest(msgs, c)
    && n1.reset == (DoNotReset !in msgs)
    && (n1.ledActive ==> HasLed(msgs))
    && (!HasLed(msgs) ==> b1.leds == b.leds && n1.mask !! ALL_LEDS)
    && (HasLed(msgs) && !n1.ledActive ==> ShowsLatest(s, b1.leds, msgs, c) && ALL_LEDS <= n1.mask)
  }

  lemma HasLedNext(msgs: seq<Message>)
    requires msgs != []
    ensures HasLed(msgs) <==> HasLed(msgs[..|msgs| - 1]) || msgs[|msgs| - 1].Led?
    ensures DoNotReset in msgs <==> DoNotReset in msgs[..|msgs| - 1] || msgs[|msgs| - 1] == DoNotReset
  {
    var before, last := msgs[..|msgs| - 1], msgs[|msgs| - 1];
    assert msgs == before + [last];
    if HasLed(before) {
      var m :| m in before && m.Led?;
      assert m in msgs;
    }
    if last.Led? {
      assert last in msgs;
    }
  }

  lemma {:induction false} LoopKeepsInv(s: Settings, b: Board, msgs: seq<Message>, c: Colour)
    ensures LoopInv(s, b, msgs, c)
  {
    if msgs != [] {
      var (b1, n1) := Turns(s, b, msgs[..|msgs| - 1]);
      LoopKeepsInv(s, b, msgs[..|msgs| - 1], c);
      HasLedNext(msgs);
      TurnOnLeds(s, b1, n1, msgs[|msgs| - 1], c);
    }
  }

  /** What one turn does to the LEDs and to what the loop remembers of them. */
  lemma TurnOnLeds(s: Settings, b: Board, n: Session, m: Message, c: Colour)
    ensures
      var (b1, n1) := Turn(s, b, n, m);
      && n1.values.At(c) == (if m.Led? && m.colour == c then m.value else n.values.At(c))
      && n1.reset == (n.reset && !m.DoNotReset?)
      && n1.ledActive == (m.Led? || (n.ledActive && !m.Delay?))
      && (n.ledActive && m.Delay? ==>
            && b1.leds.At(c).index == Notification && ALL_LEDS <= n1.mask
            && b1.leds.At(c).light == s.displayBrightness(n.values.At(c)))
      && (!(n.ledActive && m.Delay?) ==> b1.leds == b.leds)
      && (ALL_LEDS <= n.mask ==> ALL_LEDS <= n1.mask)
      && (n.mask !! ALL_LEDS && !m.Led? && !(n.ledActive && m.Delay?) ==> n1.mask !! ALL_LEDS)
  {
  }

  /** After a sequence without LED messages the LEDs are as before; with some, the reset decides. */
  lemma LedsAfterNotify(s: Settings, b: Board, msgs: seq<Message>, c: Colour)
    ensures !HasLed(msgs) ==> Notify(s, b, msgs).leds.At(c) == b.leds.At(c)
    ensures HasLed(msgs) ==>
      (Notify(s, b, msgs).leds.At(c).index == Internal <==> DoNotReset !in msgs)
  {
    LoopKeepsInv(s, b, msgs, c);
  }

  /** Any sequence with an LED message and no DoNotReset gives all three LEDs back as they were. */
  lemma LedsReturnToInternal(s: Settings, b: Board, msgs: seq<Message>, c: Colour)
    requires HasLed(msgs) && DoNotReset !in msgs
    ensures
      var lamp := Notify(s, b, msgs).leds.At(c);
      && lamp.index == Internal
      && lamp.light == lamp.internal == b.leds.At(c).internal
  {
    LoopKeepsInv(s, b, msgs, c);
    NotifyKeepsInternal(s, b, msgs, Of(c));
  }

  /** The last vibro message of a sequence, `initial` when there is none. */
  function LastVibro(msgs: seq<Message>, initial: bool): bool {
    if msgs == [] then initial
    else if msgs[|msgs| - 1].Vibro? then msgs[|msgs| - 1].on
    else LastVibro(msgs[..|msgs| - 1], initial)
  }

  function LastSound(msgs: seq<Message>, initial: bool): bool {
    if msgs == [] then initial
    else if msgs[|msgs| - 1].SoundOn? || msgs[|msgs| - 1].SoundOff? then msgs[|msgs| - 1].SoundOn?
    else LastSound(msgs[..|msgs| - 1], initial)
  }

  /** The backlight as the last display message left it: lit, or back on its internal layer. */
  function LastDisplay(s: Settings, msgs: seq<Message>, initial: Lamp): Lamp {
    if msgs == [] then initial else
    var before, last := LastDisplay(s, msgs[..|msgs| - 1], initial), msgs[|msgs| - 1];
    if !last.LedDisplay? then before
    else if last.value > 0 then
      var lit := s.displayBrightness(last.value);
      Lamp(initial.internal, lit, Notification, lit)
    else Lamp(initial.internal, 0, Internal, initial.internal)
  }

  predicate HasVibro(msgs: seq<Message>) {
    msgs != [] && (msgs[|msgs| - 1].Vibro? || HasVibro(msgs[..|msgs| - 1]))
  }

  predicate HasSound(msgs: seq<Message>) {
    msgs != [] && (msgs[|msgs| - 1].SoundOn? || msgs[|msgs| - 1].SoundOff? || HasSound(msgs[..|msgs| - 1]))
  }

  predicate OutputInv(s: Settings, b: Board, msgs: seq<Message>) {
    var (b1, n1) := Turns(s, b, msgs);
    && b1.vibro == LastVibro(msgs, b.vibro) && b1.sound == LastSound(msgs, b.sound)
    && n1.reset == (DoNotReset !in msgs)
    && (VibroMotor in n1.mask <==> HasVibro(msgs))
    && (Speaker in n1.mask <==> HasSound(msgs))
  }

  lemma TurnOutputs(s: Settings, b: Board, n: Session, m: Message)
    ensures
      var (b1, n1) := Turn(s, b, n, m);
      && b1.vibro == (if m.Vibro? then m.on else b.vibro)
      && b1.sound == (if m.SoundOn? || m.SoundOff? then m.SoundOn? else b.sound)
      && n1.reset == (n.reset && !m.DoNotReset?)
      && (VibroMotor in n1.mask <==> VibroMotor in n.mask || m.Vibro?)
      && (Speaker in n1.mask <==> Speaker in n.mask || m.SoundOn? || m.SoundOff?)
  {
  }

  lemma {:induction false} LoopKeepsOutputs(s: Settings, b: Board, msgs: seq<Message>)
    ensures OutputInv(s, b, msgs)
  {
    if msgs != [] {
      LoopKeepsOutputs(s, b, msgs[..|msgs| - 1]);
      var (b1, n1) := Turns(s, b, msgs[..|msgs| - 1]);
      TurnOutputs(s, b1, n1, msgs[|msgs| - 1]);
      HasLedNext(msgs);
    }
  }

  lemma {:induction false} LoopKeepsDisplay(s: Settings, b: Board, msgs: seq<Message>)
    ensures Turns(s, b, msgs).0.display == LastDisplay(s, msgs, b.display)
  {
    if msgs != [] {
      var past := msgs[..|msgs| - 1];
      LoopKeepsDisplay(s, b, past);
      TurnsKeepInternal(s, b, past, Display);
    }
  }

  lemma FinishOutputs(s: Settings, b: Board, n: Session)
    ensures
      var after := Finish(s, b, n);
      && after.vibro == (b.vibro && !(n.reset && VibroMotor in n.mask))
      && after.sound == (b.sound && !(n.reset && Speaker in n.mask))
      && after.display == b.display
  {
    assert VibroMotor !in ALL_LEDS && Speaker !in ALL_LEDS;
  }

  /**
   Vibro and speaker are left off by a sequence that used them, on what it last said under DoNotReset, and
   alone by a sequence that did not use them; the backlight stays as the sequence last set it.
   */
  lemma OutputsAfterNotify(s: Settings, b: Board, msgs: seq<Message>)
    ensures
      var after := Notify(s, b, msgs);
      && after.vibro == (LastVibro(msgs, b.vibro) && (DoNotReset in msgs || !HasVibro(msgs)))
      && after.sound == (LastSound(msgs, b.sound) && (DoNotReset in msgs || !HasSound(msgs)))
      && after.display == LastDisplay(s, msgs, b.display)
  {
    LoopKeepsOutputs(s, b, msgs);
    LoopKeepsDisplay(s, b, msgs);
    var (b1, n1) := Turns(s, b, msgs);
    FinishOutputs(s, b1, n1);
  }

  /** What the LEDs show during a wait that a Delay message asks for. */
  datatype Showing = Showing(length: nat, red: U8, green: U8, blue: U8)

  function Show(length: nat, leds: Rgb<Lamp>): Showing {
    Showing(length, leds.red.light, leds.green.light, leds.blue.light)
  }

  function Asked(frames: seq<Frame>): seq<Showing> {
    if frames == [] then [] else
    var before, last := Asked(frames[..|frames| - 1]), frames[|frames| - 1];
    if last.asked then before + [Show(last.length, last.leds)] else before
  }

  /**
   The simple interpreter: an LED message takes effect at once, on all three LEDs, with every colour
   at the last value the sequence gave it.
   */
  function Immediate(s: Settings, leds: Rgb<Lamp>, msgs: seq<Message>): seq<Showing> {
    if msgs == [] then [] else
    var past, last := msgs[..|msgs| - 1], msgs[|msgs| - 1];
    if !last.Delay? then Immediate(s, leds, past)
    else if HasLed(past) then
      Immediate(s, leds, past) + [Showing(last.length, s.displayBrightness(Latest(past, Red)),
        s.displayBrightness(Latest(past, Green)), s.displayBrightness(Latest(past, Blue)))]
    else
      Immediate(s, leds, past) + [Show(last.length, leds)]
  }

  lemma AskedNext(frames: seq<Frame>, f: Frame)
    ensures Asked(frames + [f]) == Asked(frames) + if f.asked then [Show(f.length, f.leds)] else []
  {
    assert (frames + [f])[..|frames|] == frames;
  }

  /** The LEDs that a Delay waits on. */
  function LedsAtDelay(s: Settings, b: Board, n: Session): Rgb<Lamp> {
    if n.ledActive then ApplyLeds(s, b, n.values).leds else b.leds
  }

  lemma DelayFrames(s: Settings, b: Board, n: Session, length: nat)
    ensures Asked(Turn(s, b, n, Delay(length)).0.frames) == Asked(b.frames) + [Show(length, LedsAtDelay(s, b, n))]
  {
    if n.ledActive {
      var off := ApplyLeds(s, b, Rgb(0, 0, 0));
      AskedNext(b.frames, Frame(false, MINIMAL_DELAY, off.display, off.leds));
      var b2 := if AnyLedInternalAndNotEmpty(b.leds) then Wait(off, false, MINIMAL_DELAY) else b;
      var b3 := ApplyLeds(s, b2, n.values);
      AskedNext(b3.frames, Frame(true, length, b3.display, b3.leds));
    } else {
      AskedNext(b.frames, Frame(true, length, b.display, b.leds));
    }
  }

  /** They show the latest value of each colour, or what was there before the first LED message. */
  lemma DelayShowsLatest(s: Settings, b: Board, past: seq<Message>)
    ensures
      var leds := LedsAtDelay(s, Turns(s, b, past).0, Turns(s, b, past).1);
      && (HasLed(past) ==>
            && leds.red.light == s.displayBrightness(Latest(past, Red))
            && leds.green.light == s.displayBrightness(Latest(past, Green))
            && leds.blue.light == s.displayBrightness(Latest(past, Blue)))
      && (!HasLed(past) ==> leds == b.leds)
  {
    LoopKeepsInv(s, b, past, Red);
    LoopKeepsInv(s, b, past, Green);
    LoopKeepsInv(s, b, past, Blue);
  }

  lemma QuietTurn(s: Settings, b: Board, n: Session, m: Message)
    requires !m.Delay?
    ensures Turn(s, b, n, m).0.frames == b.frames
  {
  }

  lemma {:induction false} LoopShowsImmediate(s: Settings, b: Board, msgs: seq<Message>)
    ensures Asked(Turns(s, b, msgs).0.frames) == Asked(b.frames) + Immediate(s, b.leds, msgs)
  {
    if msgs != [] {
      var past, last := msgs[..|msgs| - 1], msgs[|msgs| - 1];
      var (b1, n1) := Turns(s, b, past);
      LoopShowsImmediate(s, b, past);
      if last.Delay? {
        DelayFrames(s, b1, n1, last.length);
        DelayShowsLatest(s, b, past);
      } else {
        QuietTurn(s, b1, n1, last);
      }
    }
  }

  /**
   Batched LEDs agree with immediate ones: at every wait a sequence asks for, the lights show what the
   simple interpreter shows, although the real one writes them only at delays and at the end.
   */
  lemma BatchedAgreesWithImmediate(s: Settings, b: Board, msgs: seq<Message>)
    ensures Asked(Notify(s, b, msgs).frames) == Asked(b.frames) + Immediate(s, b.leds, msgs)
  {
    LoopShowsImmediate(s, b, msgs);
    var (b1, n1) := Turns(s, b, msgs);
    var off := ApplyLeds(s, ApplyLeds(s, b1, n1.values), Rgb(0, 0, 0));
    AskedNext(b1.frames, Frame(false, MINIMAL_DELAY, off.display, off.leds));
  }
}
