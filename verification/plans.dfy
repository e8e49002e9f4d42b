/**
 * The plan list: the nested rows the plans query returns are reshaped into
 * workout plans, and a plan can be copied under a new name, which inserts a
 * new plan row and one link row per exercise of the copied plan.
 */
module Plans {
  import opened Store

  /** The catalogue row a link row joins to, as the nested query returns it. */
  datatype JoinedExercise = JoinedExercise(id: nat, name: string, kind: string)

  /** A link row of the nested query: its set count and the joined exercise. */
  datatype PlanExerciseRow = PlanExerciseRow(sets: int, exercise: JoinedExercise)

  /** A plan row of the nested query, with its link rows. */
  datatype PlanQueryRow = PlanQueryRow(id: nat, name: string, planExercises: seq<PlanExerciseRow>)

  datatype PlanExercise = PlanExercise(id: nat, name: string, kind: string, sets: int)

  datatype WorkoutPlan = WorkoutPlan(id: nat, name: string, exercises: seq<PlanExercise>)

  // ---------------------------------------------------------------------
  // Reshaping the query rows

  /**
   * One exercise per link row, in order: id, name and type from the joined
   * catalogue row, the set count from the link row.
   */
  function FormatExercises(rows: seq<PlanExerciseRow>): (r: seq<PlanExercise>)
    ensures |r| == |rows|
    ensures forall k :: 0 <= k < |rows| ==>
              && r[k].id == rows[k].exercise.id
              && r[k].name == rows[k].exercise.name
              && r[k].kind == rows[k].exercise.kind
              && r[k].sets == rows[k].sets
  {
    if rows == [] then []
    else
      var row := rows[0];
      [PlanExercise(row.exercise.id, row.exercise.name, row.exercise.kind, row.sets)] + FormatExercises(rows[1..])
  }

  /** One workout plan per query row, in order, with its id and name and its reshaped exercises. */
  function FormatPlans(rows: seq<PlanQueryRow>): (r: seq<WorkoutPlan>)
    ensures |r| == |rows|
    ensures forall k :: 0 <= k < |rows| ==>
              && r[k].id == rows[k].id
              && r[k].name == rows[k].name
              && r[k].exercises == FormatExercises(rows[k].planExercises)
  {
    if rows == [] then []
    else [WorkoutPlan(rows[0].id, rows[0].name, FormatExercises(rows[0].planExercises))] + FormatPlans(rows[1..])
  }

  // ---------------------------------------------------------------------
  // Copying a plan

  /** The link rows a copy inserts: one per exercise of `plan`, in order, attached to `newPlanId`. */
  function CopyLinks(plan: WorkoutPlan, newPlanId: nat): (r: seq<LinkRow>)
    ensures |r| == |plan.exercises|
    ensures forall k :: 0 <= k < |r| ==>
              r[k].planId == newPlanId && r[k].exerciseId == plan.exercises[k].id && r[k].sets == plan.exercises[k].sets
    decreases |plan.exercises|
  {
    if plan.exercises == [] then []
    else
      var first := plan.exercises[0];
      [LinkRow(newPlanId, first.id, first.sets)] + CopyLinks(plan.(exercises := plan.exercises[1..]), newPlanId)
  }

  /** The links of plan `planId`, in table order. */
  function LinksOf(links: seq<LinkRow>, planId: nat): (r: seq<LinkRow>)
  {
    if links == [] then []
    else (if links[0].planId == planId then [links[0]] else []) + LinksOf(links[1..], planId)
  }

  /** `links` attached to `planId` instead, otherwise unchanged. */
  function Retarget(links: seq<LinkRow>, planId: nat): (r: seq<LinkRow>)
    ensures |r| == |links|
    ensures forall k :: 0 <= k < |links| ==> r[k] == links[k].(planId := planId)
  {
    if links == [] then [] else [links[0].(planId := planId)] + Retarget(links[1..], planId)
  }

  lemma {:induction false} LinksOfAppend(a: seq<LinkRow>, b: seq<LinkRow>, planId: nat)
    ensures LinksOf(a + b, planId) == LinksOf(a, planId) + LinksOf(b, planId)
  {
    if a == [] {
      assert a + b == b;
    } else {
      var head := if a[0].planId == planId then [a[0]] else [];
      assert (a + b)[0] == a[0] && (a + b)[1..] == a[1..] + b;
      assert LinksOf(a + b, planId) == head + LinksOf(a[1..] + b, planId);
      LinksOfAppend(a[1..], b, planId);
      assert LinksOf(a, planId) == head + LinksOf(a[1..], planId);
    }
  }

  lemma {:induction false} LinksOfAll(links: seq<LinkRow>, planId: nat)
    requires forall k :: 0 <= k < |links| ==> links[k].planId == planId
    ensures LinksOf(links, planId) == links
  {
    if links != [] {
      LinksOfAll(links[1..], planId);
    }
  }

  lemma {:induction false} LinksOfNone(links: seq<LinkRow>, planId: nat)
    requires forall k :: 0 <= k < |links| ==> links[k].planId != planId
    ensures LinksOf(links, planId) == []
  {
    if links != [] {
      LinksOfNone(links[1..], planId);
    }
  }

  /**
   * Copying a plan whose exercises show its stored links (in order, with
   * their exercise ids and set counts) gives the new plan, under a fresh id,
   * the same links attached to the new id, and leaves the source plan's
   * links as they were.
   */
  lemma CopyDuplicatesLinks(links: seq<LinkRow>, source: nat, plan: WorkoutPlan, newPlanId: nat)
    requires forall k :: 0 <= k < |links| ==> links[k].planId != newPlanId
    requires |LinksOf(links, source)| == |plan.exercises|
    requires forall k :: 0 <= k < |plan.exercises| ==>
               LinksOf(links, source)[k].exerciseId == plan.exercises[k].id
               && LinksOf(links, source)[k].sets == plan.exercises[k].sets
    ensures LinksOf(links + CopyLinks(plan, newPlanId), newPlanId) == Retarget(LinksOf(links, source), newPlanId)
    ensures source != newPlanId ==> LinksOf(links + CopyLinks(plan, newPlanId), source) == LinksOf(links, source)
  {
    var copy := CopyLinks(plan, newPlanId);
    LinksOfAppend(links, copy, newPlanId);
    LinksOfNone(links, newPlanId);
    LinksOfAll(copy, newPlanId);
    assert copy == Retarget(LinksOf(links, source), newPlanId);
    if source != newPlanId {
      LinksOfAppend(links, copy, source);
      LinksOfNone(copy, source);
    }
  }

  /** The copy of a fetched plan carries the fetched link rows' exercise ids and set counts, in order. */
  lemma CopyOfFetchedPlan(row: PlanQueryRow, newPlanId: nat)
    ensures var copy := CopyLinks(FormatPlans([row])[0], newPlanId);
      && |copy| == |row.planExercises|
      && forall k :: 0 <= k < |copy| ==>
           copy[k] == LinkRow(newPlanId, row.planExercises[k].exercise.id, row.planExercises[k].sets)
  {
  }

  // ---------------------------------------------------------------------
  // The plan list screen

  class PlansScreen {
    var plans: seq<WorkoutPlan>
    var loading: bool
    var error: Option<string>
    var openDialog: bool
    var selectedPlan: Option<WorkoutPlan>
    var newPlanName: string

    constructor ()
      ensures plans == [] && loading && error == None
      ensures !openDialog && selectedPlan == None && newPlanName == ""
    {
      plans, loading, error := [], true, None;
      openDialog, selectedPlan, newPlanName := false, None, "";
    }

    /**
     * Loads the signed-in user's plans: without a user, or when the query
     * is rejected, records the error; otherwise shows the reshaped rows.
     * Loading ends either way.
     */
    method FetchPlans(auth: Auth, response: Result<seq<PlanQueryRow>>)
      modifies this`plans, this`error, this`loading
      ensures !loading
      ensures auth.AuthError? ==> error == Some("No user found") && plans == old(plans)
      ensures auth.SignedIn? && response.Err? ==> error == Some(response.message) && plans == old(plans)
      ensures auth.SignedIn? && response.Ok? ==> plans == FormatPlans(response.value) && error == old(error)
    {
      if auth.AuthError? {
        error := Some("No user found");
      } else if response.Err? {
        error := Some(response.message);
      } else {
        plans := FormatPlans(response.value);
      }
      loading := false;
    }

    /** Opens the copy dialog for `plan` with the name "Copy of " followed by the plan's name. */
    method HandleCopyPlan(plan: WorkoutPlan)
      modifies this`selectedPlan, this`newPlanName, this`openDialog
      ensures selectedPlan == Some(plan)
      ensures newPlanName == "Copy of " + plan.name
      ensures openDialog
    {
      selectedPlan := Some(plan);
      newPlanName := "Copy of " + plan.name;
      openDialog := true;
    }

    /**
     * Creates the copy: with no selected plan does nothing; otherwise, for a
     * signed-in user, inserts the new plan row, then the copied link rows in
     * one request. Only when both succeed does the dialog close and the list
     * load again (with `refetched` as the query's answer); any failure
     * records its message. The catalogue and every existing row stay as
     * they were.
     */
    method HandleCreateCopy(db: Database, auth: Auth, planFault: Option<string>, linksFault: Option<string>,
                            refetched: Result<seq<PlanQueryRow>>)
      modifies this`openDialog, this`error, this`plans, this`loading, db
      ensures db.catalogue == old(db.catalogue)
      ensures old(db.plans) <= db.plans && old(db.links) <= db.links
      ensures selectedPlan.None? ==>
                && db.Snapshot() == old(db.Snapshot())
                && openDialog == old(openDialog) && error == old(error)
                && plans == old(plans) && loading == old(loading)
      ensures selectedPlan.Some? && auth.AuthError? ==>
                && db.Snapshot() == old(db.Snapshot())
                && error == Some("No user found") && openDialog == old(openDialog)
                && plans == old(plans) && loading == old(loading)
      ensures selectedPlan.Some? && auth.SignedIn? && planFault.Some? ==>
                && db.Snapshot() == old(db.Snapshot())
                && error == planFault && openDialog == old(openDialog)
                && plans == old(plans) && loading == old(loading)
      ensures selectedPlan.Some? && auth.SignedIn? && planFault.None? ==>
                db.plans == old(db.plans) + [PlanRow(newPlanName, auth.id)]
      ensures selectedPlan.Some? && auth.SignedIn? && planFault.None? && linksFault.Some? ==>
                && db.links == old(db.links)
                && error == linksFault && openDialog == old(openDialog)
                && plans == old(plans) && loading == old(loading)
      ensures selectedPlan.Some? && auth.SignedIn? && planFault.None? && linksFault.None? ==>
                && db.links == old(db.links) + CopyLinks(selectedPlan.value, |old(db.plans)|)
                && !openDialog && !loading
                && (refetched.Ok? ==> plans == FormatPlans(refetched.value) && error == old(error))
                && (refetched.Err? ==> plans == old(plans) && error == Some(refetched.message))
    {
      if selectedPlan.None? {
        return;
      }
      if auth.AuthError? {
        error := Some("No user found");
        return;
      }
      var newPlan := db.InsertPlan(PlanRow(newPlanName, auth.id), planFault);
      if newPlan.Err? {
        error := Some(newPlan.message);
        return;
      }
      var exercisesToInsert := CopyLinks(selectedPlan.value, newPlan.value);
      var insertFailure := db.InsertLinks(exercisesToInsert, linksFault);
      if insertFailure.Some? {
        error := insertFailure;
        return;
      }
      openDialog := false;
      FetchPlans(auth, refetched);
    }
  }
}
