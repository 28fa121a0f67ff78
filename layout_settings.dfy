/** The constants of include/layout_settings.h. */
module LayoutSettings {
  const StableThreshold: real := 0.009
  const Gravity: real := -1.2
  const Theta: real := 1.2
  const DragCoeff: real := 0.02
  const SpringCoeff: real := 0.0008
  const SpringLength: real := 30.0
  const TimeStep: real := 20.0
}
