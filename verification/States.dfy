/** The lifecycle states of a thread slot and of the main thread (internal/state/state.go). */
module States {

  datatype State =
    | Reserved
    | Booting
    | BootRequested
    | ShuttingDown
    | Done
    | Inactive
    | Ready
    | TransitionRequested
    | TransitionInProgress
    | TransitionComplete
    | Rebooting
    | ForceRebooting
    | RebootReady
    | YieldingForReboot

  /** What one attempt of RequestSafeStateChange does in a given state. */
  datatype SafeChange = Refused | Granted | MustWait

  function SafeChangeIn(current: State): SafeChange {
    match current
    case Reserved | ShuttingDown | Done => Refused
    case Ready | Inactive => Granted
    case _ => MustWait
  }
}
