/** The outcome of a single trial, as the runner and the gates see it. */
module TrialStatuses {

  datatype TrialStatus = Passed | Failed | Error | Timeout | Unavailable | Skipped

  predicate IsSuccess(s: TrialStatus) {
    s.Passed?
  }

  predicate CountsAsFailure(s: TrialStatus) {
    s.Failed? || s.Error? || s.Timeout?
  }

  predicate IsTerminal(s: TrialStatus) {
    !s.Skipped?
  }

  /** A terminal trial passed, counts as a failure, or found its adapter unavailable; a skipped one is none of these. */
  lemma Classification(s: TrialStatus)
    ensures IsTerminal(s) <==> IsSuccess(s) || CountsAsFailure(s) || s == Unavailable
    ensures !(IsSuccess(s) && CountsAsFailure(s)) && !IsSuccess(Unavailable) && !CountsAsFailure(Unavailable)
    ensures !IsTerminal(Skipped) && !CountsAsFailure(Passed)
  {
  }
}
