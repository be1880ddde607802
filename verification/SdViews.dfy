/**
 Which view the SD card service shows and what its keys do (applications/sd-filesystem/sd-filesystem.c), over
 every sequence of events: the view that is up belongs to the request that was accepted for it, and only the
 key pressed in it formats or ejects the card.
 */
module SdViews {
  import opened SdApp

  /** The service when the first `i` events have been handled. */
  function At(es: seq<Event>, i: nat): Outcome
    requires i <= |es|
  {
    HandleAll(STARTED, es[..i])
  }

  function Ended(es: seq<Event>): Outcome {
    HandleAll(STARTED, es)
  }

  /** The view that a request asks for; Background when it asks for none. */
  function ViewFor(e: Event, status: Status): AppState {
    match e
    case FormatAsked => Format
    case InfoAsked => Info
    case EjectAsked => Eject
    case FileSelectAsked(pathMade, listed) => if pathMade && listed then FileSelect else Background
    case CheckErrorAsked => if status != CardOk then CheckError else Background
    case ShowErrorAsked => ShowError
    case _ => Background
  }

  /** Where Ok leads in a view that it does not close. */
  function Confirmed(view: AppState): AppState {
    match view
    case Format => FormatCompleted
    case Eject => Ejected
    case _ => view
  }

  predicate HasOk(es: seq<Event>) {
    exists j :: 0 <= j < |es| && es[j].OkPressed?
  }

  /** Neither key has closed the view: Back closes every view, Ok the file list only. */
  predicate Unclosed(view: AppState, since: seq<Event>) {
    BackPressed !in since && (view == FileSelect ==> !HasOk(since))
  }

  /** Event `i` asked for a view when none was up, and the view has not been closed since. */
  predicate OnScreen(es: seq<Event>, i: nat)
    requires i < |es|
  {
    && At(es, i).Next? && At(es, i).view.state == Background
    && RequestedView(es, i) != Background && Unclosed(RequestedView(es, i), es[i + 1..])
  }

  /** The view that event `i` asked for. */
  function RequestedView(es: seq<Event>, i: nat): AppState
    requires i < |es| && At(es, i).Next?
  {
    ViewFor(es[i], At(es, i).view.status)
  }

  // ----- Runs, cut anywhere

  lemma Cut(es: seq<Event>, i: nat)
    requires Ended(es).Next? && i <= |es|
    ensures At(es, i).Next? && HandleAll(At(es, i).view, es[i..]) == Ended(es)
  {
    assert es == es[..i] + es[i..];
    PrefixRuns(STARTED, es[..i], es[i..]);
    HandleConcat(STARTED, es[..i], es[i..]);
  }

  lemma {:induction false} PrefixRuns(v: View, es: seq<Event>, more: seq<Event>)
    requires HandleAll(v, es + more).Next?
    ensures HandleAll(v, es).Next?
    decreases |es|
  {
    if es != [] {
      assert (es + more)[0] == es[0] && (es + more)[1..] == es[1..] + more;
      PrefixRuns(Handle(v, es[0]).view, es[1..], more);
    }
  }

  lemma InvAt(es: seq<Event>, i: nat)
    requires Ended(es).Next? && i <= |es|
    ensures At(es, i).Next? && Inv(At(es, i).view)
  {
    Cut(es, i);
    RunKeepsInv(STARTED, es[..i]);
  }

  lemma LastEvent(es: seq<Event>)
    requires es != [] && Ended(es).Next?
    ensures
      var past := es[..|es| - 1];
      Ended(past).Next? && Inv(Ended(past).view) && Handle(Ended(past).view, es[|es| - 1]) == Ended(es)
  {
    var n := |es| - 1;
    Cut(es, n);
    InvAt(es, n);
    assert es[n..] == [es[n]];
    var v := At(es, n).view;
    assert HandleAll(v, [es[n]]) == (if Handle(v, es[n]).Fault? then Fault else HandleAll(Handle(v, es[n]).view, []));
  }

  // ----- The view on the screen

  lemma HasOkFirst(es: seq<Event>)
    requires es != []
    ensures HasOk(es) <==> es[0].OkPressed? || HasOk(es[1..])
  {
    if HasOk(es[1..]) {
      var j :| 0 <= j < |es[1..]| && es[1..][j].OkPressed?;
      assert es[j + 1].OkPressed?;
    }
    if HasOk(es) && !es[0].OkPressed? {
      var j :| 0 <= j < |es| && es[j].OkPressed?;
      assert es[1..][j - 1].OkPressed?;
    }
  }

  predicate IsView(view: AppState) {
    view != Background && view != FormatInProgress
  }

  lemma OpenViewStep(v: View, e: Event)
    requires Inv(v) && IsView(v.state) && !e.BackPressed? && (v.state == FileSelect ==> !e.OkPressed?)
    ensures Handle(v, e).Next? && Handle(v, e).view.state == if e.OkPressed? then Confirmed(v.state) else v.state
  {
  }

  /** A view that nobody closes stays, and shows that it was confirmed once Ok has been pressed. */
  lemma {:induction false} UnclosedStays(v: View, es: seq<Event>)
    requires Inv(v) && IsView(v.state) && Unclosed(v.state, es)
    ensures HandleAll(v, es).Next?
    ensures HandleAll(v, es).view.state == if HasOk(es) then Confirmed(v.state) else v.state
    decreases |es|
  {
    if es != [] {
      HasOkFirst(es);
      assert es[0] in es;
      OpenViewStep(v, es[0]);
      HandleKeepsInv(v, es[0]);
      UnclosedStays(Handle(v, es[0]).view, es[1..]);
    }
  }

  lemma AcceptedShows(v: View, e: Event)
    requires Inv(v) && v.state == Background && Handle(v, e).Next?
    ensures Handle(v, e).view.state == ViewFor(e, v.status)
  {
  }

  /** A request on the screen determines what is shown. */
  lemma OnScreenIsShown(es: seq<Event>, i: nat)
    requires Ended(es).Next? && i < |es| && OnScreen(es, i)
    ensures
      var view := RequestedView(es, i);
      Ended(es).view.state == if HasOk(es[i + 1..]) then Confirmed(view) else view
  {
    Cut(es, i);
    InvAt(es, i);
    var v := At(es, i).view;
    assert es[i..][0] == es[i] && es[i..][1..] == es[i + 1..];
    AcceptedShows(v, es[i]);
    HandleKeepsInv(v, es[i]);
    UnclosedStays(Handle(v, es[i]).view, es[i + 1..]);
  }

  lemma HasOkLast(es: seq<Event>, e: Event)
    ensures HasOk(es + [e]) <==> HasOk(es) || e.OkPressed?
  {
    if HasOk(es) {
      var j :| 0 <= j < |es| && es[j].OkPressed?;
      assert (es + [e])[j].OkPressed?;
    }
    if e.OkPressed? {
      assert (es + [e])[|es|].OkPressed?;
    }
  }

  lemma StillOnScreen(es: seq<Event>, i: nat)
    requires i + 1 < |es| && OnScreen(es[..|es| - 1], i)
    requires var e := es[|es| - 1];
      !e.BackPressed? && (RequestedView(es[..|es| - 1], i) == FileSelect ==> !e.OkPressed?)
    ensures OnScreen(es, i)
  {
    var past := es[..|es| - 1];
    assert past[..i] == es[..i] && es[i + 1..] == past[i + 1..] + [es[|es| - 1]];
    HasOkLast(past[i + 1..], es[|es| - 1]);
  }

  /** A view that is up was asked for. */
  lemma {:induction false} ShownWasAsked(es: seq<Event>) returns (i: nat)
    requires Ended(es).Next? && Ended(es).view.state != Background
    ensures i < |es| && OnScreen(es, i)
    decreases |es|
  {
    LastEvent(es);
    var n := |es| - 1;
    var past, e := es[..n], es[n];
    var v := Ended(past).view;
    assert past == es[..n];
    if v.state == Background {
      i := n;
      AcceptedShows(v, e);
      assert es[n + 1..] == [] && !HasOk([]);
    } else {
      i := ShownWasAsked(past);
      OnScreenIsShown(past, i);
      StillOnScreen(es, i);
    }
  }

  /**
   Over every event sequence, a view is up exactly when some request for it was accepted while none was up and
   no key has closed it since; it is the view asked for, or what Ok makes of it.
   */
  lemma ViewIsTheOneAskedFor(es: seq<Event>)
    requires Ended(es).Next?
    ensures Ended(es).view.holder <==> exists i :: 0 <= i < |es| && OnScreen(es, i)
    ensures forall i | 0 <= i < |es| && OnScreen(es, i) ::
              Ended(es).view.state ==
              if HasOk(es[i + 1..]) then Confirmed(RequestedView(es, i)) else RequestedView(es, i)
  {
    RunKeepsInv(STARTED, es);
    forall i | 0 <= i < |es| && OnScreen(es, i)
      ensures Ended(es).view.state ==
              if HasOk(es[i + 1..]) then Confirmed(RequestedView(es, i)) else RequestedView(es, i)
    {
      OnScreenIsShown(es, i);
    }
    if Ended(es).view.holder {
      var i := ShownWasAsked(es);
    }
  }

  /** Asked for at `i` with no view up, and then confirmed: no Back since, and an Ok. */
  predicate ConfirmedSince(es: seq<Event>, i: nat)
    requires i < |es|
  {
    At(es, i).Next? && At(es, i).view.state == Background && BackPressed !in es[i + 1..] && HasOk(es[i + 1..])
  }

  /**
   The card is shown as formatted exactly when a format was asked for with no view up and the next key was Ok,
   with no Back after it, and as ejected exactly when that is so of an eject.
   */
  lemma OnlyTheRequestIsCarriedOut(es: seq<Event>)
    requires Ended(es).Next?
    ensures Ended(es).view.state == FormatCompleted <==>
            exists i :: 0 <= i < |es| && es[i] == FormatAsked && ConfirmedSince(es, i)
    ensures Ended(es).view.state == Ejected <==>
            exists i :: 0 <= i < |es| && es[i] == EjectAsked && ConfirmedSince(es, i)
  {
    ViewIsTheOneAskedFor(es);
    RunKeepsInv(STARTED, es);
    forall i | 0 <= i < |es| && (es[i] == FormatAsked || es[i] == EjectAsked) && ConfirmedSince(es, i)
      ensures OnScreen(es, i)
    {
    }
    if Ended(es).view.state == FormatCompleted || Ended(es).view.state == Ejected {
      var i := ShownWasAsked(es);
      assert ConfirmedSince(es, i);
    }
  }

  // ----- The status of the card

  datatype Said = Nothing | Says(status: Status)

  /** What an event says about the card, given what is on the screen. */
  function SaidBy(e: Event, state: AppState): Said {
    match e
    case Mounted(status) => Says(status)
    case CardRemoved => Says(NoCard)
    case OkPressed(formatted) =>
      if state == Format then Says(formatted) else if state == Eject then Says(NoCard) else Nothing
    case _ => Nothing
  }

  function SaidAt(es: seq<Event>, i: nat): Said
    requires i < |es|
  {
    if At(es, i).Fault? then Nothing else SaidBy(es[i], At(es, i).view.state)
  }

  /** Event `i` was the last to say something. */
  predicate LastWord(es: seq<Event>, i: nat)
    requires i < |es|
  {
    SaidAt(es, i).Says? && forall j | i < j < |es| :: SaidAt(es, j).Nothing?
  }

  /** Nothing was said in the whole run. */
  predicate Silent(es: seq<Event>) {
    forall j | 0 <= j < |es| :: SaidAt(es, j).Nothing?
  }

  lemma SaidInPast(es: seq<Event>, i: nat)
    requires i + 1 < |es|
    ensures SaidAt(es[..|es| - 1], i) == SaidAt(es, i)
  {
    assert es[..|es| - 1][..i] == es[..i];
  }

  lemma LastWordInPast(es: seq<Event>, i: nat)
    requires i + 1 < |es| && LastWord(es, i)
    ensures LastWord(es[..|es| - 1], i) && SaidAt(es[..|es| - 1], i) == SaidAt(es, i)
    ensures SaidAt(es, |es| - 1).Nothing?
  {
    var past := es[..|es| - 1];
    SaidInPast(es, i);
    forall j | i < j < |past| ensures SaidAt(past, j).Nothing? {
      SaidInPast(es, j);
    }
  }

  lemma SilentInPast(es: seq<Event>)
    requires es != [] && Silent(es)
    ensures Silent(es[..|es| - 1]) && SaidAt(es, |es| - 1).Nothing?
  {
    var past := es[..|es| - 1];
    forall j | 0 <= j < |past| ensures SaidAt(past, j).Nothing? {
      SaidInPast(es, j);
    }
  }

  lemma StatusStep(v: View, e: Event)
    requires Inv(v) && Handle(v, e).Next?
    ensures
      var said := SaidBy(e, v.state);
      Handle(v, e).view.status == if said.Says? then said.status else v.status
  {
  }

  lemma StatusAfterLast(es: seq<Event>)
    requires es != [] && Ended(es).Next?
    ensures
      var said, past := SaidAt(es, |es| - 1), es[..|es| - 1];
      Ended(past).Next? && Ended(es).view.status == if said.Says? then said.status else Ended(past).view.status
  {
    LastEvent(es);
    StatusStep(Ended(es[..|es| - 1]).view, es[|es| - 1]);
  }

  /**
   The status is what the last mount, removal, confirmed format or confirmed eject said, and no card before
   any of them.
   */
  lemma {:induction false} StatusIsTheLastWord(es: seq<Event>)
    requires Ended(es).Next?
    ensures forall i | 0 <= i < |es| && LastWord(es, i) :: Ended(es).view.status == SaidAt(es, i).status
    ensures Silent(es) ==> Ended(es).view.status == NoCard
    decreases |es|
  {
    if es != [] {
      var past := es[..|es| - 1];
      StatusAfterLast(es);
      StatusIsTheLastWord(past);
      forall i | 0 <= i < |es| && LastWord(es, i) ensures Ended(es).view.status == SaidAt(es, i).status {
        if i + 1 < |es| {
          LastWordInPast(es, i);
        }
      }
      if Silent(es) {
        SilentInPast(es);
      }
    }
  }

  // ----- Which replies say yes

  function Trues(replies: seq<bool>): nat {
    if replies == [] then 0
    else Trues(replies[..|replies| - 1]) + if replies[|replies| - 1] then 1 else 0
  }

  /** How often Ok was pressed with the file list up. */
  function Selections(v: View, es: seq<Event>): nat
    requires HandleAll(v, es).Next?
    decreases |es|
  {
    if es == [] then 0
    else
      (if es[0].OkPressed? && v.state == FileSelect then 1 else 0) + Selections(Handle(v, es[0]).view, es[1..])
  }

  lemma TruesNext(replies: seq<bool>, result: bool)
    ensures Trues(replies + [result]) == Trues(replies) + if result then 1 else 0
  {
    assert (replies + [result])[..|replies|] == replies;
  }

  /** A file is reported as selected exactly as often as Ok was pressed on the file list. */
  lemma {:induction false} SelectionsAreReported(v: View, es: seq<Event>)
    requires Inv(v) && HandleAll(v, es).Next?
    ensures Trues(HandleAll(v, es).view.replies) == Trues(v.replies) + Selections(v, es)
    decreases |es|
  {
    if es != [] {
      TruesNext(v.replies, true);
      TruesNext(v.replies, false);
      HandleKeepsInv(v, es[0]);
      SelectionsAreReported(Handle(v, es[0]).view, es[1..]);
    }
  }
}
