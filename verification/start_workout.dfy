/**
 * The start-workout screen: loads the user's plans (newest first, as the
 * query orders them), preselects the first, lets the user pick another, and
 * starts the workout for the selected plan. An empty selection is ''.
 */
module StartWorkout {
  import opened Store

  /** A plan row as the list query returns it; ids are compared and routed as text. */
  datatype PlanSummary = PlanSummary(id: string, name: string)

  class StartWorkoutScreen {
    var plans: seq<PlanSummary>
    var selectedPlan: string
    var loading: bool
    var error: Option<string>
    /** The route the screen navigated to, if it did. */
    var navigation: Option<string>

    constructor ()
      ensures plans == [] && selectedPlan == "" && loading && error == None && navigation == None
    {
      plans, selectedPlan, loading, error, navigation := [], "", true, None, None;
    }

    /**
     * Loads the plans. A failed sign-in or a rejected query records its
     * message and keeps the list and the selection; a loaded list replaces
     * the shown one and, when it is not empty, selects its first plan.
     * Loading ends either way.
     */
    method FetchWorkoutPlans(auth: Auth, response: Result<seq<PlanSummary>>)
      modifies this`plans, this`selectedPlan, this`loading, this`error
      ensures !loading && navigation == old(navigation)
      ensures auth.AuthError? ==>
                error == Some(auth.message) && plans == old(plans) && selectedPlan == old(selectedPlan)
      ensures auth.SignedIn? && response.Err? ==>
                error == Some(response.message) && plans == old(plans) && selectedPlan == old(selectedPlan)
      ensures auth.SignedIn? && response.Ok? ==>
                && plans == response.value && error == old(error)
                && (response.value != [] ==> selectedPlan == response.value[0].id)
                && (response.value == [] ==> selectedPlan == old(selectedPlan))
    {
      if auth.AuthError? {
        error := Some(auth.message);
      } else if response.Err? {
        error := Some(response.message);
      } else {
        plans := response.value;
        if |response.value| > 0 {
          selectedPlan := response.value[0].id;
        }
      }
      loading := false;
    }

    /** Selects the chosen plan; nothing else changes. */
    method HandlePlanChange(value: string)
      modifies this`selectedPlan
      ensures selectedPlan == value
    {
      selectedPlan := value;
    }

    /** Whether the Start button is disabled: exactly when nothing is selected. */
    predicate StartDisabled()
      reads this
    {
      selectedPlan == ""
    }

    /** With a plan selected, navigates to that plan's workout log; otherwise does nothing. */
    method StartWorkout()
      modifies this`navigation
      ensures StartDisabled() ==> navigation == old(navigation)
      ensures !StartDisabled() ==> navigation == Some("/log-workout/" + selectedPlan)
    {
      if selectedPlan != "" {
        navigation := Some("/log-workout/" + selectedPlan);
      }
    }
  }
}
