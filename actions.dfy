/** The choice of the navigation-bar action (actionFromState). */
module Actions {

  import opened Wrappers

  datatype Action = CompleteSettings | Connect | BuildPlan | UpdatePlan | Stop {
    /** The string value of the TypeScript enum member. */
    function Value(): (s: string)
      ensures |s| > 0
    {
      match this
      case CompleteSettings => "complete"
      case Connect => "connect"
      case BuildPlan => "build"
      case UpdatePlan => "update"
      case Stop => "stop"
    }
  }

  /** The only part of the YouTrack metadata the choice reads. */
  datatype YouTrackMetadata = YouTrackMetadata(baseUrl: string)

  /**
   * A computation in progress (or metadata pending) wins; then incomplete
   * settings; then a missing connection; then whether a plan exists yet.
   * The project plan's contents do not matter, so its type is a parameter.
   */
  function ActionFromState<P>(progress: Option<real>, pendingMetadata: bool,
                              youTrackMetadata: YouTrackMetadata, projectPlan: Option<P>,
                              hasCompleteSettings: bool): (a: Action)
    ensures a == Stop <==> progress.Some? || pendingMetadata
    ensures a == CompleteSettings <==> progress.None? && !pendingMetadata && !hasCompleteSettings
    ensures a == Connect <==>
              progress.None? && !pendingMetadata && hasCompleteSettings && |youTrackMetadata.baseUrl| == 0
    ensures a == BuildPlan <==>
              progress.None? && !pendingMetadata && hasCompleteSettings && |youTrackMetadata.baseUrl| > 0
              && projectPlan.None?
    ensures a == UpdatePlan <==>
              progress.None? && !pendingMetadata && hasCompleteSettings && |youTrackMetadata.baseUrl| > 0
              && projectPlan.Some?
  {
    if progress.Some? || pendingMetadata then Stop
    else if !hasCompleteSettings then CompleteSettings
    else if |youTrackMetadata.baseUrl| == 0 then Connect
    else if projectPlan.None? then BuildPlan
    else UpdatePlan
  }

  /** Distinct actions have distinct string values. */
  lemma ValueInjective(a: Action, b: Action)
    requires a.Value() == b.Value()
    ensures a == b
  {
  }
}
