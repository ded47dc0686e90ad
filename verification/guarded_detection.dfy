/** The detection hook plus the stale-callback guard it lacks: every file
    selection and every reset starts a new session token, and a callback is
    applied only when it carries the current token and the session is still
    loading (`IsLoading`). Everything else is the hook's own transition. */
module GuardedDetection {
  import opened Types
  import opened FileValidator
  import opened AudioDetection

  datatype Guarded = Guarded(session: Session, token: nat)

  /** A user action, or a callback tagged with the token of the request
      that produced it. */
  datatype Command = UserSelect(file: AudioFile) | UserReset | Callback(token: nat, event: Event)

  predicate IsCallbackEvent(e: Event) {
    e.Progress? || e.Succeeded? || e.Failed?
  }

  function GuardedStep(g: Guarded, c: Command): Guarded {
    match c
    case UserSelect(f) => Guarded(Step(g.session, SelectFile(f)), g.token + 1)
    case UserReset => Guarded(Step(g.session, Reset), g.token + 1)
    case Callback(t, e) =>
      if t == g.token && IsCallbackEvent(e) && IsLoading(g.session.status) then g.(session := Step(g.session, e))
      else g
  }

  /** The guard changes nothing but the callbacks it drops: user actions and
      live callbacks do exactly what the hook does. */
  lemma GuardedAgreesWhenLive(g: Guarded, c: Command)
    requires c.Callback? ==> c.token == g.token && IsCallbackEvent(c.event) && IsLoading(g.session.status)
    ensures GuardedStep(g, c).session == Step(g.session,
      match c
      case UserSelect(f) => SelectFile(f)
      case UserReset => Reset
      case Callback(_, e) => e)
  {
  }

  /** A callback from a superseded request, or one arriving after the
      session settled, is a no-op. */
  lemma StaleCallbackIgnored(g: Guarded, t: nat, e: Event)
    requires t != g.token || !IsLoading(g.session.status)
    ensures GuardedStep(g, Callback(t, e)) == g
  {
  }

  /** The guarded hook keeps the busy invariant the unguarded one breaks. */
  lemma GuardedStepKeepsBusyInvariant(g: Guarded, c: Command)
    requires Consistent(g.session) && BusyMeansInFlight(g.session)
    requires c.Callback? && c.event.Failed? && c.event.thrown.ErrorObject? ==> c.event.thrown.message != ""
    ensures Consistent(GuardedStep(g, c).session) && BusyMeansInFlight(GuardedStep(g, c).session)
  {
    match c
    case UserSelect(f) => StepPreservesConsistent(g.session, SelectFile(f));
    case UserReset => StepPreservesConsistent(g.session, Reset);
    case Callback(t, e) =>
      if t == g.token && IsCallbackEvent(e) && IsLoading(g.session.status) {
        StepPreservesConsistent(g.session, e);
      }
  }

  /** The late-100 trace under the guard: success, reset, then the timer's
      callback with the old token leaves the cleared idle state. */
  lemma GuardedLateProgressAfterReset(g: Guarded, f: AudioFile, r: DetectionResult)
    requires ValidateAudioFile(f).isValid
    ensures var g1 := GuardedStep(g, UserSelect(f));
      var g2 := GuardedStep(g1, Callback(g1.token, Progress(75)));
      var g3 := GuardedStep(g2, Callback(g1.token, Succeeded(r)));
      var g4 := GuardedStep(g3, UserReset);
      var g5 := GuardedStep(g4, Callback(g1.token, Progress(100)));
      && g3.session.status == Completed
      && g5.session == Initial
  {
  }
}
