/**
 * The hosted backend as three in-memory tables: workout plans, the
 * per-user exercise catalogue, and the plan-exercise links that carry a
 * set count. A row's id is its position in its table, so an insert hands
 * out the next free id. Every request may be rejected by the backend; the
 * rejection (its message) is a parameter of the request.
 */
module Store {

  datatype Option<T> = None | Some(value: T)

  /** Outcome of a request that yields a value, or the backend's error message. */
  datatype Result<T> = Ok(value: T) | Err(message: string)

  type UserId = string

  /** What the authentication service answers when asked for the current user. */
  datatype Auth = SignedIn(id: UserId) | AuthError(message: string)

  /** The six equipment types a plan editor can choose from. */
  datatype ExerciseType = Dumbbell | Barbell | Kettlebell | Machine | Bodyweight | Cable

  datatype PlanRow = PlanRow(name: string, owner: UserId)

  /** A catalogue row; (name, kind, owner) is the key a plan editor looks up. */
  datatype CatalogueRow = CatalogueRow(name: string, kind: ExerciseType, owner: UserId)

  datatype LinkRow = LinkRow(planId: nat, exerciseId: nat, sets: int)

  /** A snapshot of the three tables. */
  datatype Tables = Tables(plans: seq<PlanRow>, catalogue: seq<CatalogueRow>, links: seq<LinkRow>)

  /** Outcome of looking a catalogue key up. */
  datatype Lookup = Found(id: nat) | NotFound | LookupFailed(message: string)

  /** No key occurs twice in the catalogue. */
  ghost predicate UniqueKeys(catalogue: seq<CatalogueRow>)
  {
    forall i, j :: 0 <= i < j < |catalogue| ==> catalogue[i] != catalogue[j]
  }

  /** The position of the first catalogue row equal to `key`, if any. */
  function Find(catalogue: seq<CatalogueRow>, key: CatalogueRow): (r: Option<nat>)
    ensures r.None? <==> key !in catalogue
    ensures r.Some? ==> r.value < |catalogue| && catalogue[r.value] == key
    ensures r.Some? ==> key !in catalogue[..r.value]
  {
    if catalogue == [] then None
    else if catalogue[0] == key then Some(0)
    else match Find(catalogue[1..], key)
      case None => None
      case Some(i) =>
        assert catalogue[..i + 1] == [catalogue[0]] + catalogue[1..][..i];
        Some(i + 1)
  }

  class Database {
    var plans: seq<PlanRow>
    var catalogue: seq<CatalogueRow>
    var links: seq<LinkRow>

    /** The current contents of the three tables. */
    function Snapshot(): Tables
      reads this
    {
      Tables(plans, catalogue, links)
    }

    constructor (initial: Tables)
      ensures Snapshot() == initial
    {
      plans, catalogue, links := initial.plans, initial.catalogue, initial.links;
    }

    /** Inserts a plan row and returns its id, unless the backend rejects it. */
    method InsertPlan(row: PlanRow, fault: Option<string>) returns (r: Result<nat>)
      modifies this`plans
      ensures fault.Some? ==> r == Err(fault.value) && plans == old(plans)
      ensures fault.None? ==> r == Ok(|old(plans)|) && plans == old(plans) + [row]
    {
      if fault.Some? {
        r := Err(fault.value);
      } else {
        r := Ok(|plans|);
        plans := plans + [row];
      }
    }

    /**
     * Selects the one catalogue row with the given key. A key that is not
     * present is reported as NotFound, distinct from a rejected request.
     */
    method SelectExercise(key: CatalogueRow, fault: Option<string>) returns (r: Lookup)
      ensures fault.Some? ==> r == LookupFailed(fault.value)
      ensures fault.None? && key !in catalogue ==> r == NotFound
      ensures fault.None? && key in catalogue ==>
                r.Found? && r.id < |catalogue| && catalogue[r.id] == key && key !in catalogue[..r.id]
    {
      if fault.Some? {
        r := LookupFailed(fault.value);
      } else {
        var found := Find(catalogue, key);
        r := if found.Some? then Found(found.value) else NotFound;
      }
    }

    /** Inserts a catalogue row and returns its id, unless the backend rejects it. */
    method InsertExercise(row: CatalogueRow, fault: Option<string>) returns (r: Result<nat>)
      modifies this`catalogue
      ensures fault.Some? ==> r == Err(fault.value) && catalogue == old(catalogue)
      ensures fault.None? ==> r == Ok(|old(catalogue)|) && catalogue == old(catalogue) + [row]
    {
      if fault.Some? {
        r := Err(fault.value);
      } else {
        r := Ok(|catalogue|);
        catalogue := catalogue + [row];
      }
    }

    /** Inserts a batch of link rows in one request: all of them, or none if rejected. */
    method InsertLinks(rows: seq<LinkRow>, fault: Option<string>) returns (failure: Option<string>)
      modifies this`links
      ensures failure == fault
      ensures links == if fault.Some? then old(links) else old(links) + rows
    {
      failure := fault;
      if fault.None? {
        links := links + rows;
      }
    }
  }
}
