/** The wizard's five steps, in order; TotalSteps is their number. */
module StepConfig {

  datatype StepInfo = StepInfo(id: int, displayLabel: string, shortLabel: string)

  const Steps: seq<StepInfo> := [
    StepInfo(1, "Event Identity", "Event Identity"),
    StepInfo(2, "Impact Regions & Perils", "Impact Regions & Perils"),
    StepInfo(3, "Other IDs", "Other IDs"),
    StepInfo(4, "Industry Market Loss", "Industry Market Loss"),
    StepInfo(5, "Deadlines & Tracking", "Deadlines & Tracking")
  ]

  const TotalSteps: int := |Steps|

  /** A step number the wizard can be on. */
  predicate InRange(step: int) {
    1 <= step <= TotalSteps
  }
}
