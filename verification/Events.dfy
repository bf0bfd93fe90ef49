/** The bus events the modelled modules exchange. */
module Events {
  import opened Prelude

  datatype Event =
    | WorkspaceChanged(name: string, focusedWindow: Option<string>)
    | WindowFocused(appId: Option<string>, title: string)
    | PowerStateChanged(onBattery: bool)
    | BarDensityRequested(mode: string)
    | UiScaleRequested(value: string)
    | ProfileActionRequested(action: string, profile: Option<string>)
    | PresentationModeChanged(on: bool)
    | CriticalEscalation(widget: string, title: string, body: string)
    | NudgeDelivered(kind: string, title: string)
    | NotifyRequested(title: string, body: string, urgency: string)
    | FocusSessionStarted(kind: string, project: Option<string>, plannedSecs: nat)
    | FocusSessionEnded(kind: string, project: Option<string>, actualSecs: nat)
    | SessionTimerCommand(action: string)
    | WidgetActionReceived(widget: string, action: string)

  datatype EventKind =
    | WorkspaceKind
    | WindowKind
    | PowerKind
    | DensityKind
    | ScaleKind
    | ProfileKind
    | PresentationKind
    | CriticalKind
    | NudgeKind
    | NotifyKind
    | FocusStartedKind
    | FocusEndedKind
    | TimerCommandKind
    | WidgetActionKind

  function KindOf(e: Event): EventKind {
    match e
    case WorkspaceChanged(_, _) => WorkspaceKind
    case WindowFocused(_, _) => WindowKind
    case PowerStateChanged(_) => PowerKind
    case BarDensityRequested(_) => DensityKind
    case UiScaleRequested(_) => ScaleKind
    case ProfileActionRequested(_, _) => ProfileKind
    case PresentationModeChanged(_) => PresentationKind
    case CriticalEscalation(_, _, _) => CriticalKind
    case NudgeDelivered(_, _) => NudgeKind
    case NotifyRequested(_, _, _) => NotifyKind
    case FocusSessionStarted(_, _, _) => FocusStartedKind
    case FocusSessionEnded(_, _, _) => FocusEndedKind
    case SessionTimerCommand(_) => TimerCommandKind
    case WidgetActionReceived(_, _) => WidgetActionKind
  }
}
