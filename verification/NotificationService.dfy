/** The notification service's two message interpreters, as they update the app's fields. */
module NotificationService {
  import opened NotificationLayers

  /** The event flags that a blocking caller waits on. */
  class EventFlags {
    var complete: bool

    constructor ()
      ensures !complete
    {
      complete := false;
    }
  }

  class NotificationApp {
    const settings: Settings
    var display: Lamp
    var leds: Rgb<Lamp>
    var vibro: bool
    var sound: bool
    var displayTimer: bool
    /** What the lights looked like during every wait so far. */
    var frames: seq<Frame>

    function View(): Board
      reads this
    {
      Board(display, leds, vibro, sound, displayTimer, frames)
    }

    constructor (settings: Settings)
      ensures this.settings == settings
      ensures Good(View()) && View().frames == []
      ensures forall t: Target :: LampOf(View(), t) == Lamp(0, 0, Internal, 0)
    {
      this.settings := settings;
      display := Lamp(0, 0, Internal, 0);
      leds := Rgb(Lamp(0, 0, Internal, 0), Lamp(0, 0, Internal, 0), Lamp(0, 0, Internal, 0));
      vibro, sound, displayTimer, frames := false, false, false, [];
    }

    method Delay(asked: bool, length: nat)
      modifies this
      ensures View() == Wait(old(View()), asked, length)
    {
      frames := frames + [Frame(asked, length, display, leds)];
    }

    method ApplyNotificationLeds(values: Rgb<U8>)
      modifies this
      ensures View() == ApplyLeds(settings, old(View()), values)
    {
      leds := leds.(red := leds.red.ApplyNotification(settings.displayBrightness(values.red)));
      leds := leds.(green := leds.green.ApplyNotification(settings.displayBrightness(values.green)));
      leds := leds.(blue := leds.blue.ApplyNotification(settings.displayBrightness(values.blue)));
    }

    method ResetNotificationLayer(mask: set<Channel>)
      modifies this
      ensures View() == ResetLayer(old(View()), mask)
    {
      if Light(Red) in mask {
        leds := leds.(red := leds.red.ResetNotification());
      }
      if Light(Green) in mask {
        leds := leds.(green := leds.green.ResetNotification());
      }
      if Light(Blue) in mask {
        leds := leds.(blue := leds.blue.ResetNotification());
      }
      if VibroMotor in mask {
        vibro := false;
      }
      if Speaker in mask {
        sound := false;
      }
      if Backlight in mask {
        displayTimer := true;
      }
    }

    /** Before a delay: the LEDs go dark for a moment when they showed internal values. */
    method SendLeds(values: Rgb<U8>)
      modifies this
      ensures
        var dark := Wait(ApplyLeds(settings, old(View()), Rgb(0, 0, 0)), false, MINIMAL_DELAY);
        View() == ApplyLeds(settings, if AnyLedInternalAndNotEmpty(old(View()).leds) then dark else old(View()), values)
    {
      if AnyLedInternalAndNotEmpty(leds) {
        ApplyNotificationLeds(Rgb(0, 0, 0));
        Delay(false, MINIMAL_DELAY);
      }
      ApplyNotificationLeds(values);
    }

    /** What follows the loop: the LEDs that no delay has sent, and the reset. */
    method Conclude(ledActive: bool, ledValues: Rgb<U8>, resetNotifications: bool, mask: set<Channel>)
      modifies this
      ensures View() == Finish(settings, old(View()), Session(ledActive, ledValues, resetNotifications, mask))
    {
      var resetMask := mask;
      if ledActive {
        var needMinimalDelay := AnyLedInternalAndNotEmpty(leds);
        ApplyNotificationLeds(ledValues);
        resetMask := resetMask + {Light(Red), Light(Green), Light(Blue)};
        if needMinimalDelay {
          ApplyNotificationLeds(Rgb(0, 0, 0));
          Delay(false, MINIMAL_DELAY);
        }
      }
      if resetNotifications {
        ResetNotificationLayer(resetMask);
      }
    }

    /** Plays the sequence; then, and only for a blocking caller, raises its event. */
    method ProcessNotificationMessage(sequence: seq<Message>, backEvent: EventFlags?)
      modifies this, backEvent
      ensures View() == Notify(settings, old(View()), sequence)
      ensures backEvent != null ==> backEvent.complete
    {
      var ledActive := false;
      var ledValues := Rgb(0, 0, 0);
      var resetNotifications := true;
      var resetMask: set<Channel> := {};
      ghost var board, session := View(), Start();

      var index := 0;
      while index < |sequence|
        invariant 0 <= index <= |sequence|
        invariant backEvent != null ==> backEvent.complete == old(backEvent.complete)
        invariant View() == board && Session(ledActive, ledValues, resetNotifications, resetMask) == session
        invariant (board, session) == Turns(settings, old(View()), sequence[..index])
      {
        TurnsNext(settings, old(View()), sequence, index);
        ghost var turn := Turn(settings, board, session, sequence[index]);
        board, session := turn.0, turn.1;
        match sequence[index] {
          case LedDisplay(value) =>
            if value > 0 {
              display := display.ApplyNotification(settings.displayBrightness(value));
            } else {
              display := display.ResetNotification();
              if displayTimer {
                displayTimer := false;
              }
            }
            resetMask := resetMask + {Backlight};
          case Led(colour, value) =>
            ledActive := true;
            ledValues := ledValues.Set(colour, value);
            resetMask := resetMask + {Light(colour)};
          case Vibro(on) =>
            vibro := on;
            resetMask := resetMask + {VibroMotor};
          case SoundOn =>
            sound := true;
            resetMask := resetMask + {Speaker};
          case SoundOff =>
            sound := false;
            resetMask := resetMask + {Speaker};
          case Delay(length) =>
            if ledActive {
              SendLeds(ledValues);
              ledActive := false;
              resetMask := resetMask + {Light(Red), Light(Green), Light(Blue)};
            }
            Delay(true, length);
          case DoNotReset =>
            resetNotifications := false;
        }
        index := index + 1;
      }
      assert sequence[..index] == sequence;

      Conclude(ledActive, ledValues, resetNotifications, resetMask);
      if backEvent != null {
        backEvent.complete := true;
      }
    }

    /** Plays the sequence; then, and only for a blocking caller, raises its event. */
    method ProcessInternalMessage(sequence: seq<Message>, backEvent: EventFlags?)
      modifies this, backEvent
      ensures View() == WriteInternal(settings, old(View()), sequence)
      ensures backEvent != null ==> backEvent.complete
    {
      var index := 0;
      while index < |sequence|
        invariant 0 <= index <= |sequence|
        invariant backEvent != null ==> backEvent.complete == old(backEvent.complete)
        invariant View() == WriteInternal(settings, old(View()), sequence[..index])
      {
        assert sequence[..index + 1][..index] == sequence[..index];
        match sequence[index] {
          case LedDisplay(value) =>
            display := display.ApplyInternal(settings.displayBrightness(value));
          case Led(colour, value) =>
            leds := leds.Set(colour, leds.At(colour).ApplyInternal(settings.ledBrightness(value)));
          case _ =>
        }
        index := index + 1;
      }
      assert sequence[..index] == sequence;
      if backEvent != null {
        backEvent.complete := true;
      }
    }
  }
}
