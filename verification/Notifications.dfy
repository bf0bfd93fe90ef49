/** The notification gate: presentation mode and a running work session mute what is not critical. */
module Notifications {
  import opened Events

  datatype Quiet = Quiet(presentation: bool, focusWork: bool) {
    predicate Muted() { presentation || focusWork }
  }

  const LOUD := Quiet(false, false)

  /** What reaches the user: the desktop notification daemon, and for some also the shell. */
  datatype Delivery =
    | CriticalShown(widget: string, title: string, body: string)
    | NudgeShown(kind: string, title: string)
    | NoteShown(title: string, body: string, urgency: string)

  function QuietAfter(q: Quiet, e: Event): Quiet {
    match e
    case PresentationModeChanged(on) => q.(presentation := on)
    case FocusSessionStarted(kind, _, _) => q.(focusWork := kind == "work")
    case FocusSessionEnded(_, _, _) => q.(focusWork := false)
    case _ => q
  }

  function Deliveries(q: Quiet, e: Event): seq<Delivery> {
    match e
    case CriticalEscalation(w, t, b) => [CriticalShown(w, t, b)]
    case NudgeDelivered(k, t) => if q.Muted() then [] else [NudgeShown(k, t)]
    case NotifyRequested(t, b, u) => if q.Muted() && u != "critical" then [] else [NoteShown(t, b, u)]
    case _ => []
  }

  class NotificationsModule {
    var presentation: bool
    var focusWork: bool
    var shown: seq<Delivery>

    function View(): Quiet
      reads this
    {
      Quiet(presentation, focusWork)
    }

    constructor ()
      ensures View() == LOUD && shown == []
    {
      presentation, focusWork, shown := false, false, [];
    }

    predicate IsQuiet()
      reads this
    {
      presentation || focusWork
    }

    method OnEvent(e: Event)
      modifies this
      ensures View() == QuietAfter(old(View()), e)
      ensures shown == old(shown) + Deliveries(old(View()), e)
    {
      match e {
        case CriticalEscalation(w, t, b) => shown := shown + [CriticalShown(w, t, b)];
        case NudgeDelivered(k, t) =>
          if IsQuiet() { return; }
          shown := shown + [NudgeShown(k, t)];
        case NotifyRequested(t, b, u) =>
          if IsQuiet() && u != "critical" { return; }
          shown := shown + [NoteShown(t, b, u)];
        case PresentationModeChanged(on) => presentation := on;
        case FocusSessionStarted(kind, _, _) => focusWork := kind == "work";
        case FocusSessionEnded(_, _, _) => focusWork := false;
        case _ =>
      }
    }
  }
}
