/**
 What a notification sequence leaves behind and shows on the way (applications/notification/
 notification-app.c), read off the sequence alone: the LEDs under DoNotReset, the dark moments, the timer of the
 backlight.
 */
module NotificationOutcomes {
  import opened NotificationLayers

  /** Some Delay comes after an LED message, so that it has sent the LEDs. */
  predicate Sent(msgs: seq<Message>) {
    msgs != [] &&
    var past := msgs[..|msgs| - 1];
    Sent(past) || (msgs[|msgs| - 1].Delay? && HasLed(past))
  }

  predicate AllOnTop(leds: Rgb<Lamp>) {
    leds.red.index == Notification && leds.green.index == Notification && leds.blue.index == Notification
  }

  /** Until a Delay has sent them the LEDs are as they were, and from then on none is on its internal layer. */
  predicate SendingInv(s: Settings, b: Board, msgs: seq<Message>) {
    var (b1, n1) := Turns(s, b, msgs);
    && (!Sent(msgs) ==> b1.leds == b.leds && n1.ledActive == HasLed(msgs))
    && (Sent(msgs) ==> AllOnTop(b1.leds) && HasLed(msgs))
  }

  lemma TurnOnLayers(s: Settings, b: Board, n: Session, m: Message)
    ensures
      var (b1, n1) := Turn(s, b, n, m);
      && n1.ledActive == (m.Led? || (n.ledActive && !m.Delay?))
      && b1.leds == (if m.Delay? && n.ledActive then ApplyLeds(s, b, n.values).leds else b.leds)
  {
  }

  lemma {:induction false} LoopKeepsSending(s: Settings, b: Board, msgs: seq<Message>)
    ensures SendingInv(s, b, msgs)
  {
    if msgs != [] {
      var past, last := msgs[..|msgs| - 1], msgs[|msgs| - 1];
      var (b1, n1) := Turns(s, b, past);
      LoopKeepsSending(s, b, past);
      HasLedNext(msgs);
      TurnOnLayers(s, b1, n1, last);
    }
  }

  /** Some LED is on its internal layer, and some LED has an internal value to show. */
  ghost predicate ShowsInternal(leds: Rgb<Lamp>) {
    (exists c: Colour :: leds.At(c).index == Internal) && (exists c: Colour :: leds.At(c).internal != 0)
  }

  lemma GuardOfDarkness(leds: Rgb<Lamp>)
    ensures AnyLedInternalAndNotEmpty(leds) <==> ShowsInternal(leds)
  {
    assert leds.At(Red) == leds.red && leds.At(Green) == leds.green && leds.At(Blue) == leds.blue;
  }

  // ----- The LEDs under DoNotReset

  /**
   Under DoNotReset a sequence with LED messages leaves every colour at the last value it gave it; but it
   leaves the LEDs dark when no Delay has sent them and they had been showing internal values.
   */
  lemma LedsUnderDoNotReset(s: Settings, b: Board, msgs: seq<Message>, c: Colour)
    requires HasLed(msgs) && DoNotReset in msgs
    ensures
      var lamp := Notify(s, b, msgs).leds.At(c);
      var dark := !Sent(msgs) && ShowsInternal(b.leds);
      && lamp.index == Notification && lamp.internal == b.leds.At(c).internal
      && lamp.light == lamp.overlay == s.displayBrightness(if dark then 0 else Latest(msgs, c))
  {
    GuardOfDarkness(b.leds);
    LoopKeepsInv(s, b, msgs, c);
    LoopKeepsSending(s, b, msgs);
    LightsOnTop(s, b, msgs, c);
    NotifyKeepsInternal(s, b, msgs, Of(c));
    var (b1, n1) := Turns(s, b, msgs);
    FlushLeds(s, b1, n1, c);
  }

  const SET_RED_255 := [Led(Red, 255), DoNotReset]

  /** The input on which a colour that is to stay on does not: the sequence sent while an LED shows internal values. */
  lemma RedStaysDark(s: Settings, b: Board)
    ensures HasLed(SET_RED_255) && !Sent(SET_RED_255) && Latest(SET_RED_255, Red) == 255
    ensures Notify(s, b, SET_RED_255).leds.red.light == s.displayBrightness(if ShowsInternal(b.leds) then 0 else 255)
  {
    var past := SET_RED_255[..1];
    assert past[0] == Led(Red, 255) && past[..0] == [] && !HasLed(past[..0]);
    assert Latest(past, Red) == past[0].value && !Sent(past);
    assert SET_RED_255[0].Led? && SET_RED_255[1] == DoNotReset;
    assert Latest(SET_RED_255, Red) == Latest(past, Red) && !Sent(SET_RED_255);
    LedsUnderDoNotReset(s, b, SET_RED_255, Red);
  }

  lemma FlushLeds(s: Settings, b: Board, n: Session, c: Colour)
    ensures
      var leds := Flush(s, b, n).0.leds;
      if !n.ledActive then leds == b.leds
      else
        var value := if AnyLedInternalAndNotEmpty(b.leds) then 0 else n.values.At(c);
        leds.At(c) == b.leds.At(c).ApplyNotification(s.displayBrightness(value))
  {
  }

  /** What the loop has sent is in the LED's notification value. */
  lemma {:induction false} LightsOnTop(s: Settings, b: Board, msgs: seq<Message>, c: Colour)
    ensures var lamp := Turns(s, b, msgs).0.leds.At(c); Sent(msgs) ==> lamp.light == lamp.overlay
  {
    if msgs != [] {
      var past := msgs[..|msgs| - 1];
      var (b1, n1) := Turns(s, b, past);
      LightsOnTop(s, b, past, c);
      LoopKeepsSending(s, b, past);
      TurnOnLayers(s, b1, n1, msgs[|msgs| - 1]);
    }
  }

  // ----- Everything that is shown during waits

  /** What the LEDs show during a wait, asked for or not. */
  datatype Glimpse = Glimpse(asked: bool, showing: Showing)

  function Glimpses(frames: seq<Frame>): seq<Glimpse> {
    if frames == [] then [] else
    var last := frames[|frames| - 1];
    Glimpses(frames[..|frames| - 1]) + [Glimpse(last.asked, Show(last.length, last.leds))]
  }

  lemma GlimpsesNext(frames: seq<Frame>, f: Frame)
    ensures Glimpses(frames + [f]) == Glimpses(frames) + [Glimpse(f.asked, Show(f.length, f.leds))]
  {
    assert (frames + [f])[..|frames|] == frames;
  }

  /** The waits asked for, as the simple interpreter shows them. */
  function AskedWaits(s: Settings, leds: Rgb<Lamp>, msgs: seq<Message>): seq<Glimpse> {
    var showings := Immediate(s, leds, msgs);
    seq(|showings|, i requires 0 <= i < |showings| => Glimpse(true, showings[i]))
  }

  /** The dark moment, of 100 ms. */
  function Darkness(s: Settings): Glimpse {
    var off := s.displayBrightness(0);
    Glimpse(false, Showing(100, off, off, off))
  }

  /** How many Delays come before the first LED message. */
  function DelaysBeforeLed(msgs: seq<Message>): nat {
    if msgs == [] then 0 else
    var past := msgs[..|msgs| - 1];
    DelaysBeforeLed(past) + if msgs[|msgs| - 1].Delay? && !HasLed(past) then 1 else 0
  }

  lemma {:induction false} DelaysAreWaits(s: Settings, leds: Rgb<Lamp>, msgs: seq<Message>)
    ensures DelaysBeforeLed(msgs) <= |Immediate(s, leds, msgs)|
    ensures !Sent(msgs) ==> DelaysBeforeLed(msgs) == |Immediate(s, leds, msgs)|
  {
    if msgs != [] {
      DelaysAreWaits(s, leds, msgs[..|msgs| - 1]);
    }
  }

  function Inserted<T>(xs: seq<T>, k: nat, x: T): seq<T>
    requires k <= |xs|
  {
    xs[..k] + [x] + xs[k..]
  }

  /** The waits of a sequence: those asked for, and one dark moment among them if `dark`. */
  ghost function WaitsWith(s: Settings, leds: Rgb<Lamp>, msgs: seq<Message>, dark: bool): seq<Glimpse> {
    DelaysAreWaits(s, leds, msgs);
    var waits := AskedWaits(s, leds, msgs);
    if dark then Inserted(waits, DelaysBeforeLed(msgs), Darkness(s)) else waits
  }

  lemma AskedWaitsNext(s: Settings, leds: Rgb<Lamp>, msgs: seq<Message>)
    requires msgs != []
    ensures
      var past, last := msgs[..|msgs| - 1], msgs[|msgs| - 1];
      if last.Delay? then
        |AskedWaits(s, leds, msgs)| > 0 &&
        AskedWaits(s, leds, msgs) ==
          AskedWaits(s, leds, past) + [AskedWaits(s, leds, msgs)[|AskedWaits(s, leds, msgs)| - 1]]
      else AskedWaits(s, leds, msgs) == AskedWaits(s, leds, past)
  {
  }

  lemma WaitGlimpses(b: Board, asked: bool, length: nat)
    ensures Glimpses(Wait(b, asked, length).frames) == Glimpses(b.frames) + [Glimpse(asked, Show(length, b.leds))]
  {
    GlimpsesNext(b.frames, Frame(asked, length, b.display, b.leds));
  }

  lemma DarkGlimpse(s: Settings, b: Board)
    ensures Glimpses(Wait(ApplyLeds(s, b, Rgb(0, 0, 0)), false, MINIMAL_DELAY).frames) ==
            Glimpses(b.frames) + [Darkness(s)]
  {
    WaitGlimpses(ApplyLeds(s, b, Rgb(0, 0, 0)), false, MINIMAL_DELAY);
  }

  lemma SameLights(s: Settings, b: Board, b1: Board, values: Rgb<U8>, length: nat)
    ensures Show(length, ApplyLeds(s, b, values).leds) == Show(length, ApplyLeds(s, b1, values).leds)
  {
  }

  /** The board after a Delay that sends the LEDs. */
  function Sending(s: Settings, b: Board, values: Rgb<U8>, length: nat): Board {
    Wait(ApplyLeds(s, b, values), true, length)
  }

  lemma SendingGlimpses(s: Settings, b: Board, b1: Board, values: Rgb<U8>, length: nat)
    ensures Glimpses(Sending(s, b1, values, length).frames) ==
            Glimpses(b1.frames) + [Glimpse(true, Show(length, ApplyLeds(s, b, values).leds))]
  {
    WaitGlimpses(ApplyLeds(s, b1, values), true, length);
    SameLights(s, b, b1, values, length);
  }

  /** The waits that a Delay adds: a dark moment under the guard, then the one asked for. */
  lemma DelayGlimpses(s: Settings, b: Board, n: Session, length: nat)
    ensures Glimpses(Turn(s, b, n, Delay(length)).0.frames) ==
            Glimpses(b.frames) + (if n.ledActive && AnyLedInternalAndNotEmpty(b.leds) then [Darkness(s)] else []) +
            [Glimpse(true, Show(length, LedsAtDelay(s, b, n)))]
  {
    var dark := Wait(ApplyLeds(s, b, Rgb(0, 0, 0)), false, MINIMAL_DELAY);
    var after := Turn(s, b, n, Delay(length)).0;
    if !n.ledActive {
      WaitGlimpses(b, true, length);
      assert Glimpses(b.frames) + [] == Glimpses(b.frames);
    } else if AnyLedInternalAndNotEmpty(b.leds) {
      DarkGlimpse(s, b);
      SendingGlimpses(s, b, dark, n.values, length);
      assert after == Sending(s, dark, n.values, length);
    } else {
      SendingGlimpses(s, b, b, n.values, length);
      assert after == Sending(s, b, n.values, length);
      assert Glimpses(b.frames) + [] == Glimpses(b.frames);
    }
  }

  lemma DelayShowing(s: Settings, b: Board, msgs: seq<Message>)
    requires msgs != [] && msgs[|msgs| - 1].Delay?
    ensures
      var past := msgs[..|msgs| - 1];
      var (b1, n1) := Turns(s, b, past);
      AskedWaits(s, b.leds, msgs) ==
      AskedWaits(s, b.leds, past) + [Glimpse(true, Show(msgs[|msgs| - 1].length, LedsAtDelay(s, b1, n1)))]
  {
    DelayShowsLatest(s, b, msgs[..|msgs| - 1]);
  }

  /** The guard of the dark moment, at the first send and not again. */
  lemma DarkOnce(s: Settings, b: Board, msgs: seq<Message>)
    ensures
      var (b1, n1) := Turns(s, b, msgs);
      n1.ledActive && AnyLedInternalAndNotEmpty(b1.leds) <==>
      HasLed(msgs) && !Sent(msgs) && AnyLedInternalAndNotEmpty(b.leds)
  {
    LoopKeepsSending(s, b, msgs);
    LoopKeepsInv(s, b, msgs, Red);
  }

  lemma InsertedLast<T>(xs: seq<T>, k: nat, x: T, y: T)
    requires k <= |xs|
    ensures Inserted(xs, k, x) + [y] == Inserted(xs + [y], k, x)
    ensures k == |xs| ==> xs + [x] + [y] == Inserted(xs + [y], k, x)
  {
  }

  lemma WaitsNext(s: Settings, b: Board, msgs: seq<Message>)
    requires msgs != [] && msgs[|msgs| - 1].Delay?
    ensures
      var past, guard := msgs[..|msgs| - 1], AnyLedInternalAndNotEmpty(b.leds);
      var (b1, n1) := Turns(s, b, past);
      WaitsWith(s, b.leds, msgs, Sent(msgs) && guard) ==
      WaitsWith(s, b.leds, past, Sent(past) && guard) +
      (if HasLed(past) && !Sent(past) && guard then [Darkness(s)] else []) +
      [Glimpse(true, Show(msgs[|msgs| - 1].length, LedsAtDelay(s, b1, n1)))]
  {
    var past := msgs[..|msgs| - 1];
    var (b1, n1) := Turns(s, b, past);
    DelayShowing(s, b, msgs);
    DelaysAreWaits(s, b.leds, past);
    LoopKeepsSending(s, b, past);
    var y := Glimpse(true, Show(msgs[|msgs| - 1].length, LedsAtDelay(s, b1, n1)));
    InsertedLast(AskedWaits(s, b.leds, past), DelaysBeforeLed(past), Darkness(s), y);
  }

  lemma {:induction false} LoopWaits(s: Settings, b: Board, msgs: seq<Message>)
    ensures
      Glimpses(Turns(s, b, msgs).0.frames) ==
      Glimpses(b.frames) + WaitsWith(s, b.leds, msgs, Sent(msgs) && AnyLedInternalAndNotEmpty(b.leds))
  {
    if msgs != [] {
      var past, last := msgs[..|msgs| - 1], msgs[|msgs| - 1];
      var (b1, n1) := Turns(s, b, past);
      LoopWaits(s, b, past);
      if last.Delay? {
        DelayGlimpses(s, b1, n1, last.length);
        DarkOnce(s, b, past);
        WaitsNext(s, b, msgs);
      } else {
        QuietTurn(s, b1, n1, last);
      }
    }
  }

  lemma FinishGlimpses(s: Settings, b: Board, n: Session)
    ensures Glimpses(Finish(s, b, n).frames) ==
            Glimpses(b.frames) + if n.ledActive && AnyLedInternalAndNotEmpty(b.leds) then [Darkness(s)] else []
  {
    DarkGlimpse(s, ApplyLeds(s, b, n.values));
  }

  /** A dark moment at the end is in its place: no Delay followed an LED message, so all came before. */
  lemma DarkAtEnd(s: Settings, leds: Rgb<Lamp>, msgs: seq<Message>, guard: bool)
    requires Sent(msgs) ==> HasLed(msgs)
    ensures
      WaitsWith(s, leds, msgs, Sent(msgs) && guard) +
      (if HasLed(msgs) && !Sent(msgs) && guard then [Darkness(s)] else []) ==
      WaitsWith(s, leds, msgs, HasLed(msgs) && guard)
  {
    DelaysAreWaits(s, leds, msgs);
  }

  lemma WaitsBeforeFinish(s: Settings, b: Board, msgs: seq<Message>)
    ensures
      Glimpses(Notify(s, b, msgs).frames) ==
      Glimpses(Turns(s, b, msgs).0.frames) +
      (if HasLed(msgs) && !Sent(msgs) && AnyLedInternalAndNotEmpty(b.leds) then [Darkness(s)] else [])
  {
    var (b1, n1) := Turns(s, b, msgs);
    DarkOnce(s, b, msgs);
    FinishGlimpses(s, b1, n1);
  }

  /**
   Every wait of a sequence and what the LEDs show in it: the waits asked for, as the simple interpreter shows
   them, and exactly one dark moment if the sequence has LED messages and the LEDs were showing internal
   values, at the first wait that follows an LED message or else at the end.
   */
  lemma WaitsOfSequence(s: Settings, b: Board, msgs: seq<Message>)
    ensures
      Glimpses(Notify(s, b, msgs).frames) ==
      Glimpses(b.frames) + WaitsWith(s, b.leds, msgs, HasLed(msgs) && ShowsInternal(b.leds))
  {
    var guard := AnyLedInternalAndNotEmpty(b.leds);
    GuardOfDarkness(b.leds);
    WaitsBeforeFinish(s, b, msgs);
    LoopWaits(s, b, msgs);
    LoopKeepsSending(s, b, msgs);
    DarkAtEnd(s, b.leds, msgs, guard);
    assert Glimpses(b.frames) + WaitsWith(s, b.leds, msgs, Sent(msgs) && guard) +
           (if HasLed(msgs) && !Sent(msgs) && guard then [Darkness(s)] else []) ==
           Glimpses(b.frames) + WaitsWith(s, b.leds, msgs, HasLed(msgs) && guard);
  }

  // ----- The timer that turns the backlight off

  predicate HasDisplay(msgs: seq<Message>) {
    exists m :: m in msgs && m.LedDisplay?
  }

  lemma HasDisplayNext(msgs: seq<Message>)
    requires msgs != []
    ensures HasDisplay(msgs) <==> HasDisplay(msgs[..|msgs| - 1]) || msgs[|msgs| - 1].LedDisplay?
    ensures LedDisplay(0) in msgs <==> LedDisplay(0) in msgs[..|msgs| - 1] || msgs[|msgs| - 1] == LedDisplay(0)
  {
    var before, last := msgs[..|msgs| - 1], msgs[|msgs| - 1];
    assert msgs == before + [last];
    if HasDisplay(before) {
      var m :| m in before && m.LedDisplay?;
      assert m in msgs;
    }
    if last.LedDisplay? {
      assert last in msgs;
    }
  }

  lemma {:induction false} LoopKeepsTimer(s: Settings, b: Board, msgs: seq<Message>)
    ensures
      var (b1, n1) := Turns(s, b, msgs);
      && b1.displayTimer == (b.displayTimer && LedDisplay(0) !in msgs)
      && (Backlight in n1.mask <==> HasDisplay(msgs))
      && n1.reset == (DoNotReset !in msgs)
  {
    if msgs != [] {
      LoopKeepsTimer(s, b, msgs[..|msgs| - 1]);
      HasDisplayNext(msgs);
      HasLedNext(msgs);
      var (b1, n1) := Turns(s, b, msgs[..|msgs| - 1]);
      TurnOnTimer(s, b1, n1, msgs[|msgs| - 1]);
    }
  }

  lemma TurnOnTimer(s: Settings, b: Board, n: Session, m: Message)
    ensures
      var (b1, n1) := Turn(s, b, n, m);
      && b1.displayTimer == (b.displayTimer && m != LedDisplay(0))
      && (Backlight in n1.mask <==> Backlight in n.mask || m.LedDisplay?)
      && n1.reset == (n.reset && !m.DoNotReset?)
  {
  }

  /**
   A sequence with display messages starts the timer, unless it says DoNotReset; otherwise a timer that runs
   goes on unless the sequence turned the display off.
   */
  lemma TimerAfterNotify(s: Settings, b: Board, msgs: seq<Message>)
    ensures Notify(s, b, msgs).displayTimer ==
            ((HasDisplay(msgs) && DoNotReset !in msgs) || (b.displayTimer && LedDisplay(0) !in msgs))
  {
    LoopKeepsTimer(s, b, msgs);
    var (b1, n1) := Turns(s, b, msgs);
    assert Flush(s, b1, n1).0.displayTimer == b1.displayTimer;
    assert Backlight in Flush(s, b1, n1).1.mask <==> Backlight in n1.mask;
  }
}
