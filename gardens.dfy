/** The garden aggregate: the domain events it raises, the `Garden` root entity
    with its pending-event buffer (the part inherited from `AggregateRoot`),
    and the value-level transitions every garden mutator is proved against.

    Each garden-level mutator validates, returns a failure that leaves the
    aggregate untouched, returns success without an event when the value is
    already in effect, and otherwise assigns the fields, sets `UpdatedAt` and
    appends exactly one event. */
module Gardens {
  import opened Common
  import opened Text
  import opened ValueObjects
  import opened Plants

  /** The twelve domain-event records. Each holds a reference to the live
      garden (and plant), not a copy of it, and the time the change was
      accepted. */
  datatype DomainEvent =
    | GardenCreatedDomainEvent(garden: Garden, occurredAt: Instant)
    | GardenRenamedDomainEvent(garden: Garden, occurredAt: Instant)
    | GardenSurfaceAreaChangedDomainEvent(garden: Garden, occurredAt: Instant)
    | GardenTargetHumidityChangedDomainEvent(garden: Garden, occurredAt: Instant)
    | GardenDeletedDomainEvent(garden: Garden, occurredAt: Instant)
    | PlantAddedToGardenDomainEvent(garden: Garden, plant: Plant, occurredAt: Instant)
    | PlantRenamedDomainEvent(garden: Garden, plant: Plant, occurredAt: Instant)
    | PlantReclassifiedDomainEvent(garden: Garden, plant: Plant, occurredAt: Instant)
    | PlantSurfaceAreaRequirementChangedDomainEvent(garden: Garden, plant: Plant, occurredAt: Instant)
    | PlantIdealHumidityLevelChangedDomainEvent(garden: Garden, plant: Plant, occurredAt: Instant)
    | PlantPlantationDateChangedDomainEvent(garden: Garden, plant: Plant, occurredAt: Instant)
    | PlantRemovedFromGardenDomainEvent(garden: Garden, plant: Plant, occurredAt: Instant)
  {
    /** The five kinds that concern the garden itself rather than a plant. */
    predicate IsGardenLevel() {
      || GardenCreatedDomainEvent? || GardenRenamedDomainEvent? || GardenSurfaceAreaChangedDomainEvent?
      || GardenTargetHumidityChangedDomainEvent? || GardenDeletedDomainEvent?
    }
  }

  // Validation keys and messages of the garden rules ("name" and its message
  // are shared with the plant rules).
  const TotalSurfaceAreaKey: string := "totalSurfaceArea"
  const TargetHumidityLevelKey: string := "targetHumidityLevel"
  const TotalSurfaceAreaMessage: string := "Total surface area must be greater than zero."
  const TargetHumidityLevelMessage: string := "Target humidity level must be between 0 and 100."
  const CreateGardenFailedMessage: string := "One or more validation errors occurred while creating a garden."
  const RenameGardenFailedMessage: string := "One or more validation errors occurred while renaming a garden."
  const ChangeSurfaceAreaFailedMessage: string :=
    "One or more validation errors occurred while changing a garden's surface area."
  const ChangeTargetHumidityFailedMessage: string :=
    "One or more validation errors occurred while changing a garden's target humidity."

  /** The mutable fields of a garden, apart from its event buffer. */
  datatype GardenFields = GardenFields(
    name: string,
    totalSurfaceArea: SurfaceArea,
    targetHumidityLevel: HumidityLevel,
    updatedAt: Instant,
    isDeleted: bool,
    deletedAt: Option<Instant>,
    plants: seq<Plant>)

  /** The field invariants of a garden that went through validation: a trimmed
      non-blank name, a positive area, a humidity in range, and a deletion
      time exactly when it is deleted. */
  ghost predicate FieldsValid(f: GardenFields) {
    && !IsNullOrWhiteSpace(f.name) && Trim(f.name) == f.name
    && f.totalSurfaceArea.value > 0.0
    && InHumidityRange(f.targetHumidityLevel.value)
    && (f.isDeleted <==> f.deletedAt.Some?)
  }

  /** The outcome of one garden-level mutator: what it returns, the fields
      afterwards and whether it raised its event. */
  datatype Transition = Transition(result: Result, fields: GardenFields, raised: bool)

  /** The pattern every garden-level mutator follows: a failure changes
      nothing and raises nothing, and an event is raised exactly when the
      fields change. */
  ghost predicate Disciplined(before: GardenFields, t: Transition) {
    && t.result.WellFormed()
    && (t.result.IsFailure() ==> t.fields == before && !t.raised)
    && (t.raised <==> t.fields != before)
  }

  /** The validation errors of `Garden.Create`: one key per violated rule. */
  function GardenCreateErrors(name: string, totalSurfaceArea: real, targetHumidityLevel: int): (errors: ValidationErrors)
    ensures NameKey in errors <==> IsNullOrWhiteSpace(name)
    ensures TotalSurfaceAreaKey in errors <==> totalSurfaceArea <= 0.0
    ensures TargetHumidityLevelKey in errors <==> !InHumidityRange(targetHumidityLevel)
    ensures errors.Keys <= {NameKey, TotalSurfaceAreaKey, TargetHumidityLevelKey}
    ensures NameKey in errors ==> errors[NameKey] == [NameRequiredMessage]
    ensures TotalSurfaceAreaKey in errors ==> errors[TotalSurfaceAreaKey] == [TotalSurfaceAreaMessage]
    ensures TargetHumidityLevelKey in errors ==> errors[TargetHumidityLevelKey] == [TargetHumidityLevelMessage]
  {
    var withName: ValidationErrors :=
      if IsNullOrWhiteSpace(name) then map[NameKey := [NameRequiredMessage]] else map[];
    var withArea :=
      if totalSurfaceArea <= 0.0 then withName[TotalSurfaceAreaKey := [TotalSurfaceAreaMessage]] else withName;
    if !InHumidityRange(targetHumidityLevel) then withArea[TargetHumidityLevelKey := [TargetHumidityLevelMessage]]
    else withArea
  }

  /** `Rename`: a blank name fails under `name`; a trimmed name equal
      (ordinal) to the current one is a silent success; otherwise the name
      becomes the trimmed one. */
  function RenameTransition(f: GardenFields, name: string, now: Instant): (t: Transition)
    ensures Disciplined(f, t)
    ensures t.result.IsFailure() <==> IsNullOrWhiteSpace(name)
    ensures t.result.IsFailure() ==>
      t.result == Result.Failure(GardenValidationFailed, RenameGardenFailedMessage, Some(map[NameKey := [NameRequiredMessage]]))
    ensures !t.result.IsFailure() ==> t.result == Result.Success() && t.fields.name == Trim(name)
    ensures t.raised <==> !IsNullOrWhiteSpace(name) && Trim(name) != f.name
    ensures t.raised ==> t.fields == f.(name := Trim(name), updatedAt := now)
  {
    if IsNullOrWhiteSpace(name) then
      Transition(Result.Failure(GardenValidationFailed, RenameGardenFailedMessage, Some(map[NameKey := [NameRequiredMessage]])), f, false)
    else if Trim(name) == f.name then
      Transition(Result.Success(), f, false)
    else
      Transition(Result.Success(), f.(name := Trim(name), updatedAt := now), true)
  }

  /** `ChangeSurfaceArea`: a value that is not positive fails under
      `totalSurfaceArea`; an equal value is a silent success. The plants'
      combined requirement is not checked against the new value. */
  function ChangeSurfaceAreaTransition(f: GardenFields, totalSurfaceArea: real, now: Instant): (t: Transition)
    ensures Disciplined(f, t)
    ensures t.result.IsFailure() <==> totalSurfaceArea <= 0.0
    ensures t.result.IsFailure() ==>
      t.result == Result.Failure(GardenValidationFailed, ChangeSurfaceAreaFailedMessage,
                                 Some(map[TotalSurfaceAreaKey := [TotalSurfaceAreaMessage]]))
    ensures !t.result.IsFailure() ==> t.result == Result.Success() && t.fields.totalSurfaceArea.value == totalSurfaceArea
    ensures t.raised <==> totalSurfaceArea > 0.0 && totalSurfaceArea != f.totalSurfaceArea.value
    ensures t.raised ==> t.fields == f.(totalSurfaceArea := SurfaceArea(totalSurfaceArea), updatedAt := now)
  {
    if totalSurfaceArea <= 0.0 then
      Transition(Result.Failure(GardenValidationFailed, ChangeSurfaceAreaFailedMessage,
                                Some(map[TotalSurfaceAreaKey := [TotalSurfaceAreaMessage]])), f, false)
    else if totalSurfaceArea == f.totalSurfaceArea.value then
      Transition(Result.Success(), f, false)
    else
      Transition(Result.Success(), f.(totalSurfaceArea := SurfaceArea(totalSurfaceArea), updatedAt := now), true)
  }

  /** `ChangeTargetHumidity`: a value outside [0, 100] fails under
      `targetHumidityLevel`; an equal value is a silent success. */
  function ChangeTargetHumidityTransition(f: GardenFields, targetHumidityLevel: int, now: Instant): (t: Transition)
    ensures Disciplined(f, t)
    ensures t.result.IsFailure() <==> !InHumidityRange(targetHumidityLevel)
    ensures t.result.IsFailure() ==>
      t.result == Result.Failure(GardenValidationFailed, ChangeTargetHumidityFailedMessage,
                                 Some(map[TargetHumidityLevelKey := [TargetHumidityLevelMessage]]))
    ensures !t.result.IsFailure() ==>
      t.result == Result.Success() && t.fields.targetHumidityLevel.value == targetHumidityLevel
    ensures t.raised <==> InHumidityRange(targetHumidityLevel) && targetHumidityLevel != f.targetHumidityLevel.value
    ensures t.raised ==> t.fields == f.(targetHumidityLevel := HumidityLevel(targetHumidityLevel), updatedAt := now)
  {
    if targetHumidityLevel < 0 || targetHumidityLevel > 100 then
      Transition(Result.Failure(GardenValidationFailed, ChangeTargetHumidityFailedMessage,
                                Some(map[TargetHumidityLevelKey := [TargetHumidityLevelMessage]])), f, false)
    else if targetHumidityLevel == f.targetHumidityLevel.value then
      Transition(Result.Success(), f, false)
    else
      Transition(Result.Success(), f.(targetHumidityLevel := HumidityLevel(targetHumidityLevel), updatedAt := now), true)
  }

  /** `MarkDeleted`: always succeeds; only the first call on a garden changes
      it. */
  function MarkDeletedTransition(f: GardenFields, now: Instant): (t: Transition)
    ensures Disciplined(f, t)
    ensures t.result == Result.Success()
    ensures t.fields.isDeleted
    ensures t.raised <==> !f.isDeleted
    ensures t.raised ==> t.fields == f.(isDeleted := true, deletedAt := Some(now), updatedAt := now)
  {
    if f.isDeleted then
      Transition(Result.Success(), f, false)
    else
      Transition(Result.Success(), f.(isDeleted := true, deletedAt := Some(now), updatedAt := now), true)
  }

  /** Every garden-level mutator keeps a validated garden validated. */
  lemma MutatorsPreserveFieldsValid(f: GardenFields, name: string, totalSurfaceArea: real, targetHumidityLevel: int, now: Instant)
    requires FieldsValid(f)
    ensures FieldsValid(RenameTransition(f, name, now).fields)
    ensures FieldsValid(ChangeSurfaceAreaTransition(f, totalSurfaceArea, now).fields)
    ensures FieldsValid(ChangeTargetHumidityTransition(f, targetHumidityLevel, now).fields)
    ensures FieldsValid(MarkDeletedTransition(f, now).fields)
  {
    if !IsNullOrWhiteSpace(name) {
      TrimOfNonBlankIsNonBlank(name);
      TrimIdempotent(name);
    }
  }

  /** Repeating a successful mutator with the same argument is a silent
      success: it changes nothing and raises nothing. */
  lemma MutatorsAreIdempotent(f: GardenFields, name: string, totalSurfaceArea: real, targetHumidityLevel: int,
                              now: Instant, later: Instant)
    ensures var t := RenameTransition(f, name, now);
      !t.result.IsFailure() ==> RenameTransition(t.fields, name, later) == Transition(Result.Success(), t.fields, false)
    ensures var t := ChangeSurfaceAreaTransition(f, totalSurfaceArea, now);
      !t.result.IsFailure() ==>
        ChangeSurfaceAreaTransition(t.fields, totalSurfaceArea, later) == Transition(Result.Success(), t.fields, false)
    ensures var t := ChangeTargetHumidityTransition(f, targetHumidityLevel, now);
      !t.result.IsFailure() ==>
        ChangeTargetHumidityTransition(t.fields, targetHumidityLevel, later) == Transition(Result.Success(), t.fields, false)
    ensures var t := MarkDeletedTransition(f, now);
      MarkDeletedTransition(t.fields, later) == Transition(Result.Success(), t.fields, false)
  {
  }

  /** Renaming a validated garden to its own name changes nothing. */
  lemma RenameToCurrentNameIsSilent(f: GardenFields, now: Instant)
    requires FieldsValid(f)
    ensures RenameTransition(f, f.name, now) == Transition(Result.Success(), f, false)
  {
  }

  // The plant collection (see the class comment on the plant operations).

  /** `xs` without its element at index `k`. */
  function RemoveAt<T>(xs: seq<T>, k: nat): (rest: seq<T>)
    requires k < |xs|
    ensures |rest| == |xs| - 1
    ensures forall j :: 0 <= j < k ==> rest[j] == xs[j]
    ensures forall j :: k <= j < |rest| ==> rest[j] == xs[j + 1]
  {
    xs[..k] + xs[k + 1..]
  }

  /** No element occurs twice. */
  predicate AllDistinct<T(==)>(xs: seq<T>) {
    forall i, j :: 0 <= i < j < |xs| ==> xs[i] != xs[j]
  }

  /** Appending a new element keeps the elements distinct. */
  lemma AppendKeepsDistinct<T>(xs: seq<T>, x: T)
    requires AllDistinct(xs) && x !in xs
    ensures AllDistinct(xs + [x])
  {
    forall i, j | 0 <= i < j < |xs + [x]| ensures (xs + [x])[i] != (xs + [x])[j] {
      if j == |xs| {
        assert (xs + [x])[i] == xs[i];
      }
    }
  }

  /** Removing an element keeps the others distinct. */
  lemma RemoveAtKeepsDistinct<T>(xs: seq<T>, k: nat)
    requires k < |xs| && AllDistinct(xs)
    ensures AllDistinct(RemoveAt(xs, k))
  {
    var rest := RemoveAt(xs, k);
    forall i, j | 0 <= i < j < |rest| ensures rest[i] != rest[j] {
      var i' := if i < k then i else i + 1;
      var j' := if j < k then j else j + 1;
      assert rest[i] == xs[i'] && rest[j] == xs[j'];
    }
  }

  /** The properties of every plant, in collection order. */
  function PlantStates(plants: seq<Plant>): (states: seq<PlantState>)
    reads plants
    ensures |states| == |plants|
    ensures forall i :: 0 <= i < |plants| ==> states[i] == plants[i].State()
  {
    if plants == [] then [] else PlantStates(plants[..|plants| - 1]) + [plants[|plants| - 1].State()]
  }

  /** Appending a plant appends its properties. */
  lemma PlantStatesAppend(plants: seq<Plant>, plant: Plant)
    ensures PlantStates(plants + [plant]) == PlantStates(plants) + [plant.State()]
  {
    assert (plants + [plant])[..|plants|] == plants;
  }

  /** The combined surface area the plants require. */
  function TotalRequired(states: seq<PlantState>): real {
    if states == [] then 0.0
    else TotalRequired(states[..|states| - 1]) + states[|states| - 1].surfaceAreaRequired.value
  }

  /** Plants that each require a positive area require a positive total
      between them, or nothing when there are none. */
  lemma {:induction false} TotalRequiredIsPositive(states: seq<PlantState>)
    requires forall i :: 0 <= i < |states| ==> states[i].surfaceAreaRequired.value > 0.0
    ensures states == [] <==> TotalRequired(states) == 0.0
    ensures states != [] ==> TotalRequired(states) > 0.0
  {
    if states != [] {
      TotalRequiredIsPositive(states[..|states| - 1]);
    }
  }

  /** Adding a plant at the end adds its requirement to the total. */
  lemma TotalRequiredAppend(states: seq<PlantState>, s: PlantState)
    ensures TotalRequired(states + [s]) == TotalRequired(states) + s.surfaceAreaRequired.value
  {
    assert (states + [s])[..|states|] == states;
  }

  /** The total is the requirement of any one plant plus the total of the others. */
  lemma {:induction false} TotalRequiredRemoveAt(states: seq<PlantState>, k: nat)
    requires k < |states|
    ensures TotalRequired(states) == TotalRequired(RemoveAt(states, k)) + states[k].surfaceAreaRequired.value
  {
    var n := |states|;
    if k == n - 1 {
      assert RemoveAt(states, k) == states[..n - 1];
    } else {
      var init := states[..n - 1];
      TotalRequiredRemoveAt(init, k);
      assert RemoveAt(states, k) == RemoveAt(init, k) + [states[n - 1]];
      TotalRequiredAppend(RemoveAt(init, k), states[n - 1]);
    }
  }

  /** `AddPlant`'s capacity check is exact: the new plant fits beside the
      others if and only if the collection stays within the garden's area. */
  lemma AddingKeepsCapacity(states: seq<PlantState>, s: PlantState, totalArea: real)
    ensures TotalRequired(states + [s]) <= totalArea <==> TotalRequired(states) + s.surfaceAreaRequired.value <= totalArea
  {
    TotalRequiredAppend(states, s);
  }

  /** `DefineSurfaceAreaRequirement`'s capacity check is exact: the new
      requirement is accepted only if the collection stays within the
      garden's area, and a failure for capacity means it would not. */
  lemma ChangingRequirementKeepsCapacity(states: seq<PlantState>, k: nat, surfaceAreaRequired: real, totalArea: real)
    requires k < |states|
    ensures var t := DefineSurfaceAreaTransition(states[k], surfaceAreaRequired, TotalRequired(RemoveAt(states, k)), totalArea);
      && (!t.result.IsFailure() ==> TotalRequired(states[k := t.state]) <= totalArea)
      && (surfaceAreaRequired > 0.0 && t.result.IsFailure() ==>
            TotalRequired(states[k := states[k].(surfaceAreaRequired := SurfaceArea(surfaceAreaRequired))]) > totalArea)
  {
    var changed := states[k].(surfaceAreaRequired := SurfaceArea(surfaceAreaRequired));
    TotalRequiredRemoveAt(states[k := changed], k);
    assert RemoveAt(states[k := changed], k) == RemoveAt(states, k);
    TotalRequiredRemoveAt(states, k);
  }

  /** Removing a plant whose requirement is not negative keeps the collection
      within the garden's area. */
  lemma RemovingKeepsCapacity(states: seq<PlantState>, k: nat, totalArea: real)
    requires k < |states| && states[k].surfaceAreaRequired.value >= 0.0
    requires TotalRequired(states) <= totalArea
    ensures TotalRequired(RemoveAt(states, k)) <= totalArea
  {
    TotalRequiredRemoveAt(states, k);
  }

  /** The position of the first plant with the given identifier. */
  function IndexOfPlant(plants: seq<Plant>, plantId: PlantId): (r: Option<nat>)
    ensures r.Some? ==> r.value < |plants| && plants[r.value].id == plantId
    ensures r.Some? ==> forall j :: 0 <= j < r.value ==> plants[j].id != plantId
    ensures r.None? ==> forall j :: 0 <= j < |plants| ==> plants[j].id != plantId
  {
    if plants == [] then None
    else if plants[0].id == plantId then Some(0)
    else match IndexOfPlant(plants[1..], plantId)
      case None => None
      case Some(k) => Some(k + 1)
  }

  // Validation messages of the plant operations on a garden. The operations
  // are not part of the garden source that is modelled here (see the class
  // comment), so these texts are placeholders that only identify the failure.
  const AddPlantFailedMessage: string := "One or more validation errors occurred while adding a plant to a garden."
  const UpdatePlantFailedMessage: string := "One or more validation errors occurred while updating a plant in a garden."
  const CapacityExceededMessage: string :=
    "The surface area required by the garden's plants cannot exceed its total surface area."

  /** The outcome of one update of a plant that was found: what the garden
      operation returns, the plant's properties afterwards and whether the
      operation raised its event. */
  datatype PlantTransition = PlantTransition(result: Result, state: PlantState, raised: bool)

  /** The pattern of the plant updates, as for the garden mutators: a failure
      changes nothing, and an event is raised exactly when the plant changes. */
  ghost predicate PlantDisciplined(before: PlantState, t: PlantTransition) {
    && t.result.WellFormed()
    && (t.result.IsFailure() ==> t.state == before && !t.raised)
    && (t.raised <==> t.state != before)
  }

  ghost predicate ValidPlantState(s: PlantState) {
    ValidPlantFields(s.name, s.species, s.surfaceAreaRequired, s.idealHumidityLevel)
  }

  /** `RenamePlant` on a plant that was found: a blank name fails under
      `name`; otherwise the name becomes the trimmed one. */
  function RenamePlantTransition(s: PlantState, name: string): (t: PlantTransition)
    ensures PlantDisciplined(s, t)
    ensures t.result.IsFailure() <==> IsNullOrWhiteSpace(name)
    ensures t.result.IsFailure() ==>
      t.result == Result.Failure(GardenValidationFailed, UpdatePlantFailedMessage, Some(map[NameKey := [NameRequiredMessage]]))
    ensures !t.result.IsFailure() ==> t.result == Result.Success() && t.state == s.(name := Trim(name))
  {
    if IsNullOrWhiteSpace(name) then
      PlantTransition(Result.Failure(GardenValidationFailed, UpdatePlantFailedMessage,
                                     Some(map[NameKey := [NameRequiredMessage]])), s, false)
    else if Trim(name) == s.name then PlantTransition(Result.Success(), s, false)
    else PlantTransition(Result.Success(), s.(name := Trim(name)), true)
  }

  /** `ReclassifyPlant` on a plant that was found: a blank species fails
      under `species`; otherwise species (trimmed) and type are both set, and
      the event is raised when either of them differs. */
  function ReclassifyPlantTransition(s: PlantState, species: string, plantType: PlantType): (t: PlantTransition)
    ensures PlantDisciplined(s, t)
    ensures t.result.IsFailure() <==> IsNullOrWhiteSpace(species)
    ensures t.result.IsFailure() ==>
      t.result == Result.Failure(GardenValidationFailed, UpdatePlantFailedMessage,
                                 Some(map[SpeciesKey := [SpeciesRequiredMessage]]))
    ensures !t.result.IsFailure() ==>
      t.result == Result.Success() && t.state == s.(species := Trim(species), plantType := plantType)
  {
    if IsNullOrWhiteSpace(species) then
      PlantTransition(Result.Failure(GardenValidationFailed, UpdatePlantFailedMessage,
                                     Some(map[SpeciesKey := [SpeciesRequiredMessage]])), s, false)
    else if Trim(species) == s.species && plantType == s.plantType then PlantTransition(Result.Success(), s, false)
    else PlantTransition(Result.Success(), s.(species := Trim(species), plantType := plantType), true)
  }

  /** `DefineSurfaceAreaRequirement` on a plant that was found, where
      `othersArea` is what the garden's other plants require: a value that is
      not positive, or one that does not fit beside the others within
      `totalArea`, fails under `surfaceAreaRequired`. */
  function DefineSurfaceAreaTransition(s: PlantState, surfaceAreaRequired: real, othersArea: real, totalArea: real)
    : (t: PlantTransition)
    ensures PlantDisciplined(s, t)
    ensures t.result.IsFailure() <==> surfaceAreaRequired <= 0.0 || othersArea + surfaceAreaRequired > totalArea
    ensures t.result.IsFailure() ==>
      t.result == Result.Failure(GardenValidationFailed, UpdatePlantFailedMessage,
                                 Some(map[SurfaceAreaRequiredKey := [if surfaceAreaRequired <= 0.0 then SurfaceAreaRequiredMessage
                                                                     else CapacityExceededMessage]]))
    ensures !t.result.IsFailure() ==>
      t.result == Result.Success() && t.state == s.(surfaceAreaRequired := SurfaceArea(surfaceAreaRequired))
    ensures ValidPlantState(s) ==> ValidPlantState(t.state)
  {
    if surfaceAreaRequired <= 0.0 then
      PlantTransition(Result.Failure(GardenValidationFailed, UpdatePlantFailedMessage,
                                     Some(map[SurfaceAreaRequiredKey := [SurfaceAreaRequiredMessage]])), s, false)
    else if othersArea + surfaceAreaRequired > totalArea then
      PlantTransition(Result.Failure(GardenValidationFailed, UpdatePlantFailedMessage,
                                     Some(map[SurfaceAreaRequiredKey := [CapacityExceededMessage]])), s, false)
    else if surfaceAreaRequired == s.surfaceAreaRequired.value then PlantTransition(Result.Success(), s, false)
    else PlantTransition(Result.Success(), s.(surfaceAreaRequired := SurfaceArea(surfaceAreaRequired)), true)
  }

  /** `AdjustIdealHumidity` on a plant that was found: a value outside
      [0, 100] fails under `idealHumidityLevel`. */
  function AdjustIdealHumidityTransition(s: PlantState, idealHumidityLevel: int): (t: PlantTransition)
    ensures PlantDisciplined(s, t)
    ensures t.result.IsFailure() <==> !InHumidityRange(idealHumidityLevel)
    ensures t.result.IsFailure() ==>
      t.result == Result.Failure(GardenValidationFailed, UpdatePlantFailedMessage,
                                 Some(map[IdealHumidityLevelKey := [IdealHumidityLevelMessage]]))
    ensures !t.result.IsFailure() ==>
      t.result == Result.Success() && t.state == s.(idealHumidityLevel := HumidityLevel(idealHumidityLevel))
    ensures ValidPlantState(s) ==> ValidPlantState(t.state)
  {
    if idealHumidityLevel < 0 || idealHumidityLevel > 100 then
      PlantTransition(Result.Failure(GardenValidationFailed, UpdatePlantFailedMessage,
                                     Some(map[IdealHumidityLevelKey := [IdealHumidityLevelMessage]])), s, false)
    else if idealHumidityLevel == s.idealHumidityLevel.value then PlantTransition(Result.Success(), s, false)
    else PlantTransition(Result.Success(), s.(idealHumidityLevel := HumidityLevel(idealHumidityLevel)), true)
  }

  /** Renaming and reclassifying keep a validated plant validated: an
      accepted name or species is trimmed and not blank. (The two numeric
      updates state the same in their own contracts.) */
  lemma TextPlantUpdatesPreserveValidity(s: PlantState, name: string, species: string, plantType: PlantType)
    requires ValidPlantState(s)
    ensures ValidPlantState(RenamePlantTransition(s, name).state)
    ensures ValidPlantState(ReclassifyPlantTransition(s, species, plantType).state)
  {
    assert ValidPlantState(RenamePlantTransition(s, name).state) by {
      if !IsNullOrWhiteSpace(name) {
        TrimOfNonBlankIsNonBlank(name);
        TrimIdempotent(name);
      }
    }
    if !IsNullOrWhiteSpace(species) {
      TrimOfNonBlankIsNonBlank(species);
      TrimIdempotent(species);
    }
  }

  /** Repeating a successful plant update with the same argument is a silent
      success. */
  lemma PlantUpdatesAreIdempotent(s: PlantState, name: string, species: string, plantType: PlantType,
                                  surfaceAreaRequired: real, othersArea: real, totalArea: real, idealHumidityLevel: int)
    ensures var t := RenamePlantTransition(s, name);
      !t.result.IsFailure() ==> RenamePlantTransition(t.state, name) == PlantTransition(Result.Success(), t.state, false)
    ensures var t := ReclassifyPlantTransition(s, species, plantType);
      !t.result.IsFailure() ==>
        ReclassifyPlantTransition(t.state, species, plantType) == PlantTransition(Result.Success(), t.state, false)
    ensures var t := DefineSurfaceAreaTransition(s, surfaceAreaRequired, othersArea, totalArea);
      !t.result.IsFailure() ==>
        DefineSurfaceAreaTransition(t.state, surfaceAreaRequired, othersArea, totalArea)
          == PlantTransition(Result.Success(), t.state, false)
    ensures var t := AdjustIdealHumidityTransition(s, idealHumidityLevel);
      !t.result.IsFailure() ==>
        AdjustIdealHumidityTransition(t.state, idealHumidityLevel) == PlantTransition(Result.Success(), t.state, false)
  {
    if !IsNullOrWhiteSpace(name) {
      TrimOfNonBlankIsNonBlank(name);
    }
    if !IsNullOrWhiteSpace(species) {
      TrimOfNonBlankIsNonBlank(species);
    }
    TrimIdempotent(name);
    TrimIdempotent(species);
  }

  /** The garden aggregate root. `AggregateRoot` (the pending-event buffer) is
      folded into it, since `Garden` is its only subclass. */
  class Garden {
    const id: GardenId
    const userId: UserId
    var name: string
    var totalSurfaceArea: SurfaceArea
    var targetHumidityLevel: HumidityLevel
    const createdAt: Instant
    var updatedAt: Instant
    var isDeleted: bool
    var deletedAt: Option<Instant>
    var plants: seq<Plant>
    /** `AggregateRoot._domainEvents`. */
    var domainEvents: seq<DomainEvent>

    function Fields(): GardenFields
      reads this
    {
      GardenFields(name, totalSurfaceArea, targetHumidityLevel, updatedAt, isDeleted, deletedAt, plants)
    }

    /** The aggregate invariant: the buffer only holds events this garden
        raised, and no plant is held twice. */
    ghost predicate Valid()
      reads this
    {
      && (forall i :: 0 <= i < |domainEvents| ==> domainEvents[i].garden == this)
      && AllDistinct(plants)
    }

    /** The private constructor: stores its arguments, not deleted, no plants
        and no pending events. */
    constructor (id: GardenId, userId: UserId, name: string, totalSurfaceArea: SurfaceArea,
                 targetHumidityLevel: HumidityLevel, createdAt: Instant, updatedAt: Instant)
      ensures this.id == id && this.userId == userId && this.createdAt == createdAt
      ensures Fields() == GardenFields(name, totalSurfaceArea, targetHumidityLevel, updatedAt, false, None, [])
      ensures domainEvents == [] && Valid()
    {
      this.id := id;
      this.userId := userId;
      this.name := name;
      this.totalSurfaceArea := totalSurfaceArea;
      this.targetHumidityLevel := targetHumidityLevel;
      this.createdAt := createdAt;
      this.updatedAt := updatedAt;
      this.isDeleted := false;
      this.deletedAt := None;
      this.plants := [];
      this.domainEvents := [];
    }

    /** `AggregateRoot.DomainEvents`: the buffer in the order the events were
        raised; a sequence value, so callers cannot change the buffer through it. */
    function DomainEvents(): (events: seq<DomainEvent>)
      reads this
      ensures events == domainEvents
    {
      domainEvents
    }

    /** `AggregateRoot.RaiseDomainEvent`: appends one event at the end. */
    method RaiseDomainEvent(e: DomainEvent)
      modifies this
      ensures domainEvents == old(domainEvents) + [e]
      ensures Fields() == old(Fields())
    {
      domainEvents := domainEvents + [e];
    }

    /** `AggregateRoot.ClearDomainEvents`: empties the buffer. */
    method ClearDomainEvents()
      modifies this
      ensures domainEvents == []
      ensures Fields() == old(Fields())
    {
      domainEvents := [];
    }

    /** `FromPersistence`, as written: wraps the stored values without
        validating them and raises no event. It ignores `deleted` and
        `deletedAt`, so the garden comes back as not deleted. */
    static method FromPersistence(id: GardenId, userId: UserId, name: string, totalSurfaceArea: real,
                                  targetHumidityLevel: int, createdAt: Instant, updatedAt: Instant,
                                  deleted: bool, deletedAt: Option<Instant>)
      returns (g: Garden)
      ensures fresh(g) && g.Valid()
      ensures g.id == id && g.userId == userId && g.createdAt == createdAt
      ensures g.Fields() == GardenFields(name, SurfaceArea(totalSurfaceArea), HumidityLevel(targetHumidityLevel),
                                         updatedAt, false, None, [])
      ensures g.domainEvents == []
    {
      g := new Garden(id, userId, name, SurfaceArea(totalSurfaceArea), HumidityLevel(targetHumidityLevel),
                      createdAt, updatedAt);
    }

    /** `FromPersistence` as evidently intended: like the method above, but
        the stored deletion marker is restored. */
    static method FromPersistenceKeepingDeletion(id: GardenId, userId: UserId, name: string, totalSurfaceArea: real,
                                                 targetHumidityLevel: int, createdAt: Instant, updatedAt: Instant,
                                                 deleted: bool, deletedAt: Option<Instant>)
      returns (g: Garden)
      ensures fresh(g) && g.Valid()
      ensures g.id == id && g.userId == userId && g.createdAt == createdAt
      ensures g.Fields() == GardenFields(name, SurfaceArea(totalSurfaceArea), HumidityLevel(targetHumidityLevel),
                                         updatedAt, deleted, deletedAt, [])
      ensures g.domainEvents == []
    {
      g := new Garden(id, userId, name, SurfaceArea(totalSurfaceArea), HumidityLevel(targetHumidityLevel),
                      createdAt, updatedAt);
      g.isDeleted := deleted;
      g.deletedAt := deletedAt;
    }

    /** `Garden.Create`: collects an error for every violated rule; if there
        is any, fails with `Garden.ValidationFailed` and no garden. Otherwise
        returns a validated garden with the trimmed name, both timestamps set
        to `utcNow`, and exactly one pending `GardenCreated` event. `id`
        stands for `GardenId.New()`. */
    static method Create(id: GardenId, userId: UserId, name: string, totalSurfaceArea: real,
                         targetHumidityLevel: int, utcNow: Instant)
      returns (r: ResultOf<Garden>)
      ensures var errors := GardenCreateErrors(name, totalSurfaceArea, targetHumidityLevel);
        && (r.IsFailure() <==> errors != map[])
        && (r.IsFailure() ==> r == ResultOf<Garden>.Failure(GardenValidationFailed, CreateGardenFailedMessage, Some(errors)))
      ensures !r.IsFailure() ==>
        && r.error == None && r.value.Some? && fresh(r.value.value)
        && var g := r.value.value;
        && g.id == id && g.userId == userId && g.createdAt == utcNow
        && g.Fields() == GardenFields(Trim(name), SurfaceArea(totalSurfaceArea), HumidityLevel(targetHumidityLevel),
                                      utcNow, false, None, [])
        && g.domainEvents == [GardenCreatedDomainEvent(g, utcNow)]
        && FieldsValid(g.Fields()) && g.Valid()
    {
      var validationErrors: ValidationErrors := map[];
      if IsNullOrWhiteSpace(name) {
        validationErrors := validationErrors[NameKey := [NameRequiredMessage]];
      }
      if totalSurfaceArea <= 0.0 {
        validationErrors := validationErrors[TotalSurfaceAreaKey := [TotalSurfaceAreaMessage]];
      }
      if targetHumidityLevel < 0 || targetHumidityLevel > 100 {
        validationErrors := validationErrors[TargetHumidityLevelKey := [TargetHumidityLevelMessage]];
      }
      assert validationErrors == GardenCreateErrors(name, totalSurfaceArea, targetHumidityLevel);
      if |validationErrors| > 0 {
        return ResultOf<Garden>.Failure(GardenValidationFailed, CreateGardenFailedMessage, Some(validationErrors));
      }
      assert NameKey !in validationErrors;
      TrimOfNonBlankIsNonBlank(name);
      TrimIdempotent(name);
      var garden := new Garden(id, userId, Trim(name), SurfaceArea(totalSurfaceArea),
                               HumidityLevel(targetHumidityLevel), utcNow, utcNow);
      garden.RaiseDomainEvent(GardenCreatedDomainEvent(garden, utcNow));
      return ResultOf<Garden>.Success(garden);
    }

    /** `Rename`, as decided by `RenameTransition`; the event is raised only
        when the name changes. */
    method Rename(name: string, utcNow: Instant) returns (r: Result)
      requires Valid()
      modifies this
      ensures Valid()
      ensures var t := RenameTransition(old(Fields()), name, utcNow);
        && r == t.result && Fields() == t.fields
        && domainEvents == old(domainEvents) + (if t.raised then [GardenRenamedDomainEvent(this, utcNow)] else [])
    {
      var validationErrors: ValidationErrors := map[];
      if IsNullOrWhiteSpace(name) {
        validationErrors := validationErrors[NameKey := [NameRequiredMessage]];
      }
      if |validationErrors| > 0 {
        return Result.Failure(GardenValidationFailed, RenameGardenFailedMessage, Some(validationErrors));
      }
      var trimmedName := Trim(name);
      if trimmedName == this.name {
        return Result.Success();
      }
      this.name := trimmedName;
      updatedAt := utcNow;
      RaiseDomainEvent(GardenRenamedDomainEvent(this, utcNow));
      return Result.Success();
    }

    /** `ChangeSurfaceArea`, as decided by `ChangeSurfaceAreaTransition`. */
    method ChangeSurfaceArea(totalSurfaceArea: real, utcNow: Instant) returns (r: Result)
      requires Valid()
      modifies this
      ensures Valid()
      ensures var t := ChangeSurfaceAreaTransition(old(Fields()), totalSurfaceArea, utcNow);
        && r == t.result && Fields() == t.fields
        && domainEvents == old(domainEvents) + (if t.raised then [GardenSurfaceAreaChangedDomainEvent(this, utcNow)] else [])
    {
      if totalSurfaceArea <= 0.0 {
        var validationErrors: ValidationErrors := map[TotalSurfaceAreaKey := [TotalSurfaceAreaMessage]];
        return Result.Failure(GardenValidationFailed, ChangeSurfaceAreaFailedMessage, Some(validationErrors));
      }
      if totalSurfaceArea == this.totalSurfaceArea.value {
        return Result.Success();
      }
      this.totalSurfaceArea := SurfaceArea(totalSurfaceArea);
      updatedAt := utcNow;
      RaiseDomainEvent(GardenSurfaceAreaChangedDomainEvent(this, utcNow));
      return Result.Success();
    }

    /** `ChangeTargetHumidity`, as decided by `ChangeTargetHumidityTransition`. */
    method ChangeTargetHumidity(targetHumidityLevel: int, utcNow: Instant) returns (r: Result)
      requires Valid()
      modifies this
      ensures Valid()
      ensures var t := ChangeTargetHumidityTransition(old(Fields()), targetHumidityLevel, utcNow);
        && r == t.result && Fields() == t.fields
        && domainEvents == old(domainEvents) + (if t.raised then [GardenTargetHumidityChangedDomainEvent(this, utcNow)] else [])
    {
      if targetHumidityLevel < 0 || targetHumidityLevel > 100 {
        var validationErrors: ValidationErrors := map[TargetHumidityLevelKey := [TargetHumidityLevelMessage]];
        return Result.Failure(GardenValidationFailed, ChangeTargetHumidityFailedMessage, Some(validationErrors));
      }
      if targetHumidityLevel == this.targetHumidityLevel.value {
        return Result.Success();
      }
      this.targetHumidityLevel := HumidityLevel(targetHumidityLevel);
      updatedAt := utcNow;
      RaiseDomainEvent(GardenTargetHumidityChangedDomainEvent(this, utcNow));
      return Result.Success();
    }

    /** `MarkDeleted`, as decided by `MarkDeletedTransition`. */
    method MarkDeleted(utcNow: Instant) returns (r: Result)
      requires Valid()
      modifies this
      ensures Valid()
      ensures var t := MarkDeletedTransition(old(Fields()), utcNow);
        && r == t.result && Fields() == t.fields
        && domainEvents == old(domainEvents) + (if t.raised then [GardenDeletedDomainEvent(this, utcNow)] else [])
    {
      if isDeleted {
        return Result.Success();
      }
      isDeleted := true;
      deletedAt := Some(utcNow);
      updatedAt := utcNow;
      RaiseDomainEvent(GardenDeletedDomainEvent(this, utcNow));
      return Result.Success();
    }

    /*
     * The plant operations. The `Garden` source modelled here declares no
     * plant collection and none of these operations, while the domain tests
     * call them. They are reconstructed: the tests pin down the validation
     * keys, the surface-area capacity check, the garden's validation code on
     * `AddPlant`, the silent success on a missing plant or an unchanged value,
     * and one event per accepted change. Where the tests are silent the
     * operations follow the garden mutators: the garden's validation code on
     * every failure, `UpdatedAt` set on every accepted change, and the
     * capacity check before the unchanged-value check.
     */

    /** The capacity invariant: the plants fit in the garden's total area. */
    ghost predicate WithinCapacity()
      reads this, plants
    {
      TotalRequired(PlantStates(plants)) <= totalSurfaceArea.value
    }

    /** `AddPlant`: the plant rules first (every violation recorded), then the
        capacity check, which fails under `surfaceAreaRequired` alone.
        `plantId` stands for `PlantId.New()`. */
    method AddPlant(plantId: PlantId, name: string, species: string, plantType: PlantType, plantationDate: Instant,
                    surfaceAreaRequired: real, idealHumidityLevel: int, utcNow: Instant)
      returns (r: ResultOf<Plant>)
      requires Valid()
      modifies this
      ensures Valid()
      ensures var errors := PlantFieldErrors(name, species, surfaceAreaRequired, idealHumidityLevel);
        var overCapacity := old(TotalRequired(PlantStates(plants))) + surfaceAreaRequired > old(totalSurfaceArea.value);
        && (r.IsFailure() <==> errors != map[] || overCapacity)
        && (errors != map[] ==> r.error.Some? && r.error.value.code == GardenValidationFailed
                                && r.error.value.validationErrors == Some(errors))
        && (errors == map[] && overCapacity ==>
              r.error.Some? && r.error.value.code == GardenValidationFailed
              && r.error.value.validationErrors.Some? && r.error.value.validationErrors.value.Keys == {SurfaceAreaRequiredKey})
      ensures r.IsFailure() ==> r.value == None && unchanged(this)
      ensures !r.IsFailure() ==>
        && r.error == None && r.value.Some? && fresh(r.value.value)
        && var p := r.value.value;
        && p.id == plantId && p.name == Trim(name) && p.species == Trim(species) && p.plantType == plantType
        && p.plantationDate == plantationDate && p.surfaceAreaRequired == SurfaceArea(surfaceAreaRequired)
        && p.idealHumidityLevel == HumidityLevel(idealHumidityLevel)
        && Fields() == old(Fields()).(plants := old(plants) + [p], updatedAt := utcNow)
        && PlantStates(plants) == old(PlantStates(plants)) + [p.State()]
        && domainEvents == old(domainEvents) + [PlantAddedToGardenDomainEvent(this, p, utcNow)]
        && WithinCapacity()
    {
      var validationErrors := PlantFieldErrors(name, species, surfaceAreaRequired, idealHumidityLevel);
      if |validationErrors| > 0 {
        return ResultOf<Plant>.Failure(GardenValidationFailed, AddPlantFailedMessage, Some(validationErrors));
      }
      if TotalRequired(PlantStates(plants)) + surfaceAreaRequired > totalSurfaceArea.value {
        var capacityErrors: ValidationErrors := map[SurfaceAreaRequiredKey := [CapacityExceededMessage]];
        return ResultOf<Plant>.Failure(GardenValidationFailed, AddPlantFailedMessage, Some(capacityErrors));
      }
      var plant := new Plant(plantId, Trim(name), Trim(species), plantType, plantationDate,
                             SurfaceArea(surfaceAreaRequired), HumidityLevel(idealHumidityLevel));
      AttachPlant(plant, utcNow);
      return ResultOf<Plant>.Success(plant);
    }

    /** The accepted half of `AddPlant`: appends a plant that fits. */
    method AttachPlant(plant: Plant, utcNow: Instant)
      requires Valid() && plant !in plants
      requires TotalRequired(PlantStates(plants)) + plant.surfaceAreaRequired.value <= totalSurfaceArea.value
      modifies this
      ensures Valid()
      ensures Fields() == old(Fields()).(plants := old(plants) + [plant], updatedAt := utcNow)
      ensures PlantStates(plants) == old(PlantStates(plants)) + [plant.State()]
      ensures domainEvents == old(domainEvents) + [PlantAddedToGardenDomainEvent(this, plant, utcNow)]
      ensures WithinCapacity()
    {
      ghost var states := PlantStates(plants);
      AppendKeepsDistinct(plants, plant);
      PlantStatesAppend(plants, plant);
      plants := plants + [plant];
      AddingKeepsCapacity(states, plant.State(), totalSurfaceArea.value);
      updatedAt := utcNow;
      RaiseDomainEvent(PlantAddedToGardenDomainEvent(this, plant, utcNow));
    }

    /** `RenamePlant`: a missing plant is a silent success; otherwise
        `RenamePlantTransition` decides the outcome, and an accepted change is
        applied to the plant in place. No other plant changes. */
    method RenamePlant(plantId: PlantId, name: string, utcNow: Instant) returns (r: Result)
      requires Valid()
      modifies this, plants
      ensures Valid()
      ensures IndexOfPlant(old(plants), plantId).None? ==> r == Result.Success() && unchanged(this) && unchanged(plants)
      ensures IndexOfPlant(old(plants), plantId).Some? ==>
        var k := IndexOfPlant(old(plants), plantId).value;
        var p := old(plants)[k];
        var t := RenamePlantTransition(old(p.State()), name);
        && r == t.result
        && p.State() == t.state
        && (forall i :: 0 <= i < |old(plants)| && i != k ==> unchanged(old(plants)[i]))
        && Fields() == (if t.raised then old(Fields()).(updatedAt := utcNow) else old(Fields()))
        && domainEvents == old(domainEvents) + (if t.raised then [PlantRenamedDomainEvent(this, p, utcNow)] else [])
    {
      r := Result.Success();
      var found := IndexOfPlant(plants, plantId);
      if found.Some? {
        var plant := plants[found.value];
        var outcome := RenamePlantTransition(plant.State(), name);
        if outcome.raised {
          plant.name := outcome.state.name;
          updatedAt := utcNow;
          RaiseDomainEvent(PlantRenamedDomainEvent(this, plant, utcNow));
        }
        r := outcome.result;
      }
    }

    /** `ReclassifyPlant`: a missing plant is a silent success; otherwise
        `ReclassifyPlantTransition` decides, as above. */
    method ReclassifyPlant(plantId: PlantId, species: string, plantType: PlantType, utcNow: Instant) returns (r: Result)
      requires Valid()
      modifies this, plants
      ensures Valid()
      ensures IndexOfPlant(old(plants), plantId).None? ==> r == Result.Success() && unchanged(this) && unchanged(plants)
      ensures IndexOfPlant(old(plants), plantId).Some? ==>
        var k := IndexOfPlant(old(plants), plantId).value;
        var p := old(plants)[k];
        var t := ReclassifyPlantTransition(old(p.State()), species, plantType);
        && r == t.result
        && p.State() == t.state
        && (forall i :: 0 <= i < |old(plants)| && i != k ==> unchanged(old(plants)[i]))
        && Fields() == (if t.raised then old(Fields()).(updatedAt := utcNow) else old(Fields()))
        && domainEvents == old(domainEvents) + (if t.raised then [PlantReclassifiedDomainEvent(this, p, utcNow)] else [])
    {
      r := Result.Success();
      var found := IndexOfPlant(plants, plantId);
      if found.Some? {
        var plant := plants[found.value];
        var outcome := ReclassifyPlantTransition(plant.State(), species, plantType);
        if outcome.raised {
          plant.species := outcome.state.species;
          plant.plantType := outcome.state.plantType;
          updatedAt := utcNow;
          RaiseDomainEvent(PlantReclassifiedDomainEvent(this, plant, utcNow));
        }
        r := outcome.result;
      }
    }

    /** `DefineSurfaceAreaRequirement`: a missing plant is a silent success;
        otherwise `DefineSurfaceAreaTransition` decides against what the
        other plants of the garden require, as above
        (`ChangingRequirementKeepsCapacity` shows that an accepted change keeps
        the plants within capacity). */
    method DefineSurfaceAreaRequirement(plantId: PlantId, surfaceAreaRequired: real, utcNow: Instant) returns (r: Result)
      requires Valid()
      modifies this, plants
      ensures Valid()
      ensures IndexOfPlant(old(plants), plantId).None? ==> r == Result.Success() && unchanged(this) && unchanged(plants)
      ensures IndexOfPlant(old(plants), plantId).Some? ==>
        var k := IndexOfPlant(old(plants), plantId).value;
        var p := old(plants)[k];
        var t := DefineSurfaceAreaTransition(old(p.State()), surfaceAreaRequired,
                                         TotalRequired(RemoveAt(old(PlantStates(plants)), k)), old(totalSurfaceArea.value));
        && r == t.result
        && p.State() == t.state
        && (forall i :: 0 <= i < |old(plants)| && i != k ==> unchanged(old(plants)[i]))
        && Fields() == (if t.raised then old(Fields()).(updatedAt := utcNow) else old(Fields()))
        && domainEvents == old(domainEvents) + (if t.raised then [PlantSurfaceAreaRequirementChangedDomainEvent(this, p, utcNow)] else [])
    {
      r := Result.Success();
      var found := IndexOfPlant(plants, plantId);
      if found.Some? {
        var plant := plants[found.value];
        var outcome := DefineSurfaceAreaTransition(plant.State(), surfaceAreaRequired,
                                                   TotalRequired(RemoveAt(PlantStates(plants), found.value)),
                                                   totalSurfaceArea.value);
        if outcome.raised {
          ApplySurfaceAreaRequirement(plant, outcome.state.surfaceAreaRequired, utcNow);
        }
        r := outcome.result;
      }
    }

    /** The accepted half of `DefineSurfaceAreaRequirement`: stores the new
        requirement on the plant in place and records the change. */
    method ApplySurfaceAreaRequirement(plant: Plant, surfaceAreaRequired: SurfaceArea, utcNow: Instant)
      requires Valid() && plant in plants
      modifies this, plant
      ensures Valid()
      ensures plant.State() == old(plant.State()).(surfaceAreaRequired := surfaceAreaRequired)
      ensures Fields() == old(Fields()).(updatedAt := utcNow)
      ensures domainEvents == old(domainEvents) + [PlantSurfaceAreaRequirementChangedDomainEvent(this, plant, utcNow)]
    {
      plant.surfaceAreaRequired := surfaceAreaRequired;
      updatedAt := utcNow;
      RaiseDomainEvent(PlantSurfaceAreaRequirementChangedDomainEvent(this, plant, utcNow));
    }

    /** `AdjustIdealHumidity`: a missing plant is a silent success; otherwise
        `AdjustIdealHumidityTransition` decides, as above. */
    method AdjustIdealHumidity(plantId: PlantId, idealHumidityLevel: int, utcNow: Instant) returns (r: Result)
      requires Valid()
      modifies this, plants
      ensures Valid()
      ensures IndexOfPlant(old(plants), plantId).None? ==> r == Result.Success() && unchanged(this) && unchanged(plants)
      ensures IndexOfPlant(old(plants), plantId).Some? ==>
        var k := IndexOfPlant(old(plants), plantId).value;
        var p := old(plants)[k];
        var t := AdjustIdealHumidityTransition(old(p.State()), idealHumidityLevel);
        && r == t.result
        && p.State() == t.state
        && (forall i :: 0 <= i < |old(plants)| && i != k ==> unchanged(old(plants)[i]))
        && Fields() == (if t.raised then old(Fields()).(updatedAt := utcNow) else old(Fields()))
        && domainEvents == old(domainEvents) + (if t.raised then [PlantIdealHumidityLevelChangedDomainEvent(this, p, utcNow)] else [])
    {
      r := Result.Success();
      var found := IndexOfPlant(plants, plantId);
      if found.Some? {
        var plant := plants[found.value];
        var outcome := AdjustIdealHumidityTransition(plant.State(), idealHumidityLevel);
        if outcome.raised {
          plant.idealHumidityLevel := outcome.state.idealHumidityLevel;
          updatedAt := utcNow;
          RaiseDomainEvent(PlantIdealHumidityLevelChangedDomainEvent(this, plant, utcNow));
        }
        r := outcome.result;
      }
    }

    /** `RemovePlant`: a missing plant is a silent success; otherwise the plant
        leaves the collection and the others keep their order. */
    method RemovePlant(plantId: PlantId, utcNow: Instant) returns (r: Result)
      requires Valid()
      modifies this
      ensures Valid()
      ensures r == Result.Success()
      ensures IndexOfPlant(old(plants), plantId).None? ==> unchanged(this)
      ensures IndexOfPlant(old(plants), plantId).Some? ==>
        var k := IndexOfPlant(old(plants), plantId).value;
        && Fields() == old(Fields()).(plants := RemoveAt(old(plants), k), updatedAt := utcNow)
        && PlantStates(plants) == RemoveAt(old(PlantStates(plants)), k)
        && domainEvents == old(domainEvents) + [PlantRemovedFromGardenDomainEvent(this, old(plants)[k], utcNow)]
    {
      var found := IndexOfPlant(plants, plantId);
      if found.None? {
        return Result.Success();
      }
      var k := found.value;
      var plant := plants[k];
      RemoveAtKeepsDistinct(plants, k);
      plants := RemoveAt(plants, k);
      updatedAt := utcNow;
      RaiseDomainEvent(PlantRemovedFromGardenDomainEvent(this, plant, utcNow));
      return Result.Success();
    }
  }
}
