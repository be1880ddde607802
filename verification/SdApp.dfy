/**
 The event loop of the SD card service (applications/sd-filesystem/sd-filesystem.c): the views it puts
 up and the replies it owes to file-select requests. What the file system and the card answer is part of
 the event.
 */
module SdApp {

  datatype AppState =
    | Background | Format | FormatInProgress | FormatCompleted | Info
    | Eject | Ejected | FileSelect | CheckError | ShowError

  datatype Status = CardOk | NoCard | CardError

  datatype Event =
    | OkPressed(formatted: Status)    // `formatted` is the card status when the event starts a format
    | BackPressed
    | FormatAsked
    | InfoAsked
    | EjectAsked
    | FileSelectAsked(pathMade: bool, listed: bool)
    | CheckErrorAsked
    | ShowErrorAsked
    | Mounted(status: Status)
    | CardRemoved

  /** `requests` counts the file-select requests taken so far, `replies` holds the replies sent. */
  datatype View = View(state: AppState, holder: bool, status: Status, requests: nat, replies: seq<bool>)

  /** A null view holder was dereferenced. */
  datatype Outcome = Fault | Next(view: View)

  const STARTED := View(Background, false, NoCard, 0, [])

  function ResetState(v: View): Outcome {
    if v.holder then Next(v.(holder := false, state := Background)) else Fault
  }

  function Reply(v: View, result: bool): View {
    v.(replies := v.replies + [result])
  }

  function ShowIfFree(v: View, state: AppState): View {
    if v.holder then v else v.(holder := true, state := state)
  }

  function Handle(v: View, e: Event): Outcome {
    match e
    case OkPressed(formatted) => (
      match v.state
      case Format => if v.holder then Next(v.(state := FormatCompleted, status := formatted)) else Fault
      case Eject => if v.holder then Next(v.(state := Ejected, status := NoCard)) else Fault
      case FileSelect => ResetState(Reply(v, true))
      case _ => Next(v)
    )
    case BackPressed => (
      match v.state
      case FormatInProgress => Next(v)
      case FileSelect => ResetState(Reply(v, false))
      case _ => ResetState(v)
    )
    case FormatAsked => Next(ShowIfFree(v, Format))
    case InfoAsked => Next(ShowIfFree(v, Info))
    case EjectAsked => Next(ShowIfFree(v, Eject))
    case FileSelectAsked(pathMade, listed) =>
      var taken := v.(requests := v.requests + 1);
      if !pathMade || v.holder then Next(Reply(taken, false))
      else if listed then Next(ShowIfFree(taken, FileSelect))
      else ResetState(Reply(taken.(holder := true), false))
    case CheckErrorAsked => Next(if v.status != CardOk then ShowIfFree(v, CheckError) else v)
    case ShowErrorAsked => Next(ShowIfFree(v, ShowError))
    case Mounted(status) => Next(v.(status := status))
    case CardRemoved => Next(v.(status := NoCard))
  }

  function HandleAll(v: View, es: seq<Event>): Outcome
    decreases |es|
  {
    if es == [] then Next(v) else
    var next := Handle(v, es[0]);
    if next.Fault? then Fault else HandleAll(next.view, es[1..])
  }

  // ----- The service as it runs

  class Service {
    var state: AppState
    var holder: bool
    var status: Status
    var requests: nat
    var replies: seq<bool>

    function Current(): View
      reads this
    {
      View(state, holder, status, requests, replies)
    }

    constructor ()
      ensures Current() == STARTED
    {
      state, holder, status, requests, replies := Background, false, NoCard, 0, [];
    }

    method TryToAllocViewHolder() returns (result: bool)
      modifies this
      ensures result == !old(holder)
      ensures Current() == old(Current()).(holder := true)
    {
      result := false;
      if !holder {
        holder := true;
        result := true;
      }
    }

    /** `faulted` when there is no view holder to stop. */
    method AppResetState() returns (faulted: bool)
      modifies this
      ensures (if faulted then Fault else Next(Current())) == ResetState(old(Current()))
    {
      if !holder {
        return true;
      }
      holder := false;
      state := Background;
      return false;
    }

    method SendResult(result: bool)
      modifies this
      ensures Current() == Reply(old(Current()), result)
    {
      replies := replies + [result];
    }

    method HandleEvent(event: Event) returns (faulted: bool)
      modifies this
      ensures (if faulted then Fault else Next(Current())) == Handle(old(Current()), event)
    {
      faulted := false;
      match event {
        case OkPressed(formatted) =>
          match state {
            case Format =>
              if !holder {
                return true;
              }
              state := FormatInProgress;
              status := formatted;
              state := FormatCompleted;
            case Eject =>
              if !holder {
                return true;
              }
              state := Ejected;
              status := NoCard;
            case FileSelect =>
              SendResult(true);
              faulted := AppResetState();
            case _ =>
          }
        case BackPressed =>
          match state {
            case FormatInProgress =>
            case FileSelect =>
              SendResult(false);
              faulted := AppResetState();
            case _ =>
              faulted := AppResetState();
          }
        case FormatAsked =>
          var free := TryToAllocViewHolder();
          if free {
            state := Format;
          }
        case InfoAsked =>
          var free := TryToAllocViewHolder();
          if free {
            state := Info;
          }
        case EjectAsked =>
          var free := TryToAllocViewHolder();
          if free {
            state := Eject;
          }
        case FileSelectAsked(pathMade, listed) =>
          requests := requests + 1;
          if !pathMade {
            SendResult(false);
          } else {
            var free := TryToAllocViewHolder();
            if free {
              if !listed {
                SendResult(false);
                faulted := AppResetState();
              } else {
                state := FileSelect;
              }
            } else {
              SendResult(false);
            }
          }
        case CheckErrorAsked =>
          if status != CardOk {
            var free := TryToAllocViewHolder();
            if free {
              state := CheckError;
            }
          }
        case ShowErrorAsked =>
          var free := TryToAllocViewHolder();
          if free {
            state := ShowError;
          }
        case Mounted(newStatus) =>
          status := newStatus;
        case CardRemoved =>
          status := NoCard;
      }
    }
  }

  // ----- Reply conservation

  predicate Inv(v: View) {
    && (v.holder <==> v.state != Background)
    && v.state != FormatInProgress
    && |v.replies| == v.requests - (if v.state == FileSelect then 1 else 0)
  }

  /** Back arrives only while a view is up. */
  predicate BacksHaveAView(v: View, es: seq<Event>)
    decreases |es|
  {
    es == [] ||
    (&& (es[0] == BackPressed ==> v.state != Background)
     && (Handle(v, es[0]).Next? ==> BacksHaveAView(Handle(v, es[0]).view, es[1..])))
  }

  lemma HandleKeepsInv(v: View, e: Event)
    requires Inv(v)
    ensures Handle(v, e).Fault? <==> e == BackPressed && v.state == Background
    ensures Handle(v, e).Next? ==> Inv(Handle(v, e).view)
  {
  }

  /**
   Over every event sequence the service survives exactly when each Back arrives while a view is up;
   then a view holder exists exactly when the state is not Background, no event ever finds a format
   half done, and the replies sent are the requests taken, less the one still on the screen.
   */
  lemma {:induction false} RunKeepsInv(v: View, es: seq<Event>)
    requires Inv(v)
    ensures HandleAll(v, es).Next? <==> BacksHaveAView(v, es)
    ensures HandleAll(v, es).Next? ==> Inv(HandleAll(v, es).view)
    decreases |es|
  {
    if es != [] {
      HandleKeepsInv(v, es[0]);
      if Handle(v, es[0]).Next? {
        RunKeepsInv(Handle(v, es[0]).view, es[1..]);
      }
    }
  }

  /** From the start, in the terms of the two counters. */
  lemma RepliesAreConserved(es: seq<Event>)
    ensures HandleAll(STARTED, es).Next? <==> BacksHaveAView(STARTED, es)
    ensures HandleAll(STARTED, es).Next? ==>
      var v := HandleAll(STARTED, es).view;
      && (v.holder <==> v.state != Background)
      && |v.replies| == v.requests - (if v.state == FileSelect then 1 else 0)
  {
    RunKeepsInv(STARTED, es);
  }

  /** Events that leave a view that is up alone: everything but its two keys. */
  ghost predicate NoKeys(es: seq<Event>) {
    forall i | 0 <= i < |es| :: !es[i].BackPressed? && !es[i].OkPressed?
  }

  /** Whatever is asked meanwhile, a view that is up stays, and new file-select requests are refused. */
  lemma {:induction false} ViewStaysUp(v: View, es: seq<Event>)
    requires Inv(v) && v.holder && NoKeys(es)
    ensures HandleAll(v, es).Next?
    ensures
      var w := HandleAll(v, es).view;
      && w.state == v.state && w.holder
      && v.replies <= w.replies
      && (forall i | |v.replies| <= i < |w.replies| :: !w.replies[i])
    decreases |es|
  {
    if es != [] {
      HandleKeepsInv(v, es[0]);
      ViewStaysUp(Handle(v, es[0]).view, es[1..]);
    }
  }

  lemma {:induction false} HandleConcat(v: View, es: seq<Event>, more: seq<Event>)
    requires HandleAll(v, es).Next?
    ensures HandleAll(v, es + more) == HandleAll(HandleAll(v, es).view, more)
    decreases |es|
  {
    if es == [] {
      assert es + more == more;
    } else {
      assert (es + more)[1..] == es[1..] + more;
      HandleConcat(Handle(v, es[0]).view, es[1..], more);
    }
  }

  /**
   A request on the screen is answered by the first of the two keys, with true for Ok and false for Back,
   and all requests that came in between were refused.
   */
  lemma PendingRequestIsAnswered(v: View, es: seq<Event>, key: Event)
    requires Inv(v) && v.state == FileSelect && NoKeys(es) && (key.OkPressed? || key.BackPressed?)
    ensures HandleAll(v, es).Next? && HandleAll(v, es + [key]).Next?
    ensures
      var before, after := HandleAll(v, es).view, HandleAll(v, es + [key]).view;
      && after.replies == before.replies + [key.OkPressed?]
      && (forall i | |v.replies| <= i < |before.replies| :: !before.replies[i])
      && after.state == Background && |after.replies| == after.requests
  {
    ViewStaysUp(v, es);
    RunKeepsInv(v, es);
    HandleConcat(v, es, [key]);
    var w := HandleAll(v, es).view;
    HandleKeepsInv(w, key);
    assert HandleAll(w, [key]) == HandleAll(Handle(w, key).view, []);
  }
}
