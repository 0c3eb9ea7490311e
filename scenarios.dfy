/** The behaviour the domain tests pin down, written as clients of the model:
    each method replays one test on fresh objects and states, in its
    postcondition, what that test asserts. */
module GardenScenarios {
  import opened Common
  import opened Text
  import opened ValueObjects
  import opened Plants
  import opened Gardens
  import opened ManagementContracts
  import opened Messaging

  const MyGarden: string := "My Garden"

  /** A failure with the garden validation code that records `key`. */
  predicate FailsUnder(error: Option<Error>, key: string) {
    && error.Some? && error.value.code == GardenValidationFailed
    && error.value.validationErrors.Some? && key in error.value.validationErrors.value
  }

  /** `Garden.Create(userId, "My Garden", 10, 50, now)`, which succeeds. */
  method CreateMyGarden(id: GardenId, userId: UserId, now: Instant) returns (g: Garden)
    ensures fresh(g) && g.Valid()
    ensures g.id == id && g.userId == userId && g.createdAt == now
    ensures g.Fields() == GardenFields(MyGarden, SurfaceArea(10.0), HumidityLevel(50), now, false, None, [])
    ensures g.domainEvents == [GardenCreatedDomainEvent(g, now)]
  {
    assert !IsWhiteSpace(MyGarden[0]) && !IsWhiteSpace(MyGarden[|MyGarden| - 1]);
    TrimOfTrimmed(MyGarden);
    var errors := GardenCreateErrors(MyGarden, 10.0, 50);
    assert errors.Keys == {};
    var r := Garden.Create(id, userId, MyGarden, 10.0, 50, now);
    g := r.value.value;
  }

  /** Create succeeds with the given name and exactly one `GardenCreated` event. */
  method CreateSucceedsAndRaisesEvent(id: GardenId, userId: UserId, now: Instant)
    returns (name: string, events: seq<DomainEvent>)
    ensures name == "My Garden"
    ensures |events| == 1 && events[0].GardenCreatedDomainEvent? && events[0].occurredAt == now
  {
    var g := CreateMyGarden(id, userId, now);
    name := g.name;
    events := g.DomainEvents();
  }

  /** The tests' starting point: "My Garden" created and its buffer cleared. */
  method ClearedGarden(id: GardenId, userId: UserId, now: Instant) returns (g: Garden)
    ensures fresh(g) && g.Valid()
    ensures g.Fields() == GardenFields(MyGarden, SurfaceArea(10.0), HumidityLevel(50), now, false, None, [])
    ensures g.domainEvents == []
  {
    g := CreateMyGarden(id, userId, now);
    g.ClearDomainEvents();
  }

  /** Each violated rule of `Create` fails with the garden validation code
      under its own key. */
  method CreateRejectsEachBadInput(id: GardenId, userId: UserId, now: Instant)
    returns (emptyName: ResultOf<Garden>, noArea: ResultOf<Garden>, tooDry: ResultOf<Garden>, tooWet: ResultOf<Garden>)
    ensures emptyName.IsFailure() && FailsUnder(emptyName.error, NameKey)
    ensures noArea.IsFailure() && FailsUnder(noArea.error, TotalSurfaceAreaKey)
    ensures tooDry.IsFailure() && FailsUnder(tooDry.error, TargetHumidityLevelKey)
    ensures tooWet.IsFailure() && FailsUnder(tooWet.error, TargetHumidityLevelKey)
  {
    emptyName := Garden.Create(id, userId, "", 10.0, 50, now);
    noArea := Garden.Create(id, userId, MyGarden, 0.0, 50, now);
    tooDry := Garden.Create(id, userId, MyGarden, 10.0, -1, now);
    tooWet := Garden.Create(id, userId, MyGarden, 10.0, 101, now);
  }

  /** After a clear, a rename to a new name raises exactly one `GardenRenamed`. */
  method RenameRaisesOneEvent(id: GardenId, userId: UserId, now: Instant)
    returns (r: Result, name: string, events: seq<DomainEvent>)
    ensures r.isSuccess && name == "Renamed Garden"
    ensures |events| == 1 && events[0].GardenRenamedDomainEvent?
  {
    var g := ClearedGarden(id, userId, now);
    var newName := "Renamed Garden";
    assert !IsWhiteSpace(newName[0]) && !IsWhiteSpace(newName[|newName| - 1]);
    TrimOfTrimmed(newName);
    r := g.Rename(newName, now + 1);
    name := g.name;
    events := g.DomainEvents();
  }

  /** Renaming to the current name succeeds and raises nothing. */
  method RenameToSameNameIsSilent(id: GardenId, userId: UserId, now: Instant)
    returns (r: Result, events: seq<DomainEvent>)
    ensures r.isSuccess && events == []
  {
    var g := ClearedGarden(id, userId, now);
    TrimOfTrimmed(MyGarden);
    r := g.Rename(MyGarden, now + 1);
    events := g.DomainEvents();
  }

  /** A new area is taken with one event; the same area is silent; an area
      that is not positive fails under `totalSurfaceArea`. */
  method ChangeSurfaceAreaCases(id: GardenId, userId: UserId, now: Instant)
    returns (changed: Result, area: real, eventsAfterChange: seq<DomainEvent>,
             same: Result, eventsAfterSame: seq<DomainEvent>, zero: Result, negative: Result)
    ensures changed.isSuccess && area == 20.0
    ensures |eventsAfterChange| == 1 && eventsAfterChange[0].GardenSurfaceAreaChangedDomainEvent?
    ensures same.isSuccess && eventsAfterSame == []
    ensures zero.IsFailure() && FailsUnder(zero.error, TotalSurfaceAreaKey)
    ensures negative.IsFailure() && FailsUnder(negative.error, TotalSurfaceAreaKey)
  {
    var g := ClearedGarden(id, userId, now);
    changed := g.ChangeSurfaceArea(20.0, now + 1);
    area := g.totalSurfaceArea.value;
    eventsAfterChange := g.DomainEvents();
    var h := ClearedGarden(id, userId, now);
    same := h.ChangeSurfaceArea(10.0, now + 1);
    eventsAfterSame := h.DomainEvents();
    zero := h.ChangeSurfaceArea(0.0, now + 1);
    negative := h.ChangeSurfaceArea(-1.0, now + 1);
  }

  /** A new humidity is taken with one event; one outside [0, 100] fails
      under `targetHumidityLevel`. */
  method ChangeTargetHumidityCases(id: GardenId, userId: UserId, now: Instant)
    returns (changed: Result, level: int, events: seq<DomainEvent>, tooDry: Result, tooWet: Result)
    ensures changed.isSuccess && level == 60
    ensures |events| == 1 && events[0].GardenTargetHumidityChangedDomainEvent?
    ensures tooDry.IsFailure() && FailsUnder(tooDry.error, TargetHumidityLevelKey)
    ensures tooWet.IsFailure() && FailsUnder(tooWet.error, TargetHumidityLevelKey)
  {
    var g := ClearedGarden(id, userId, now);
    changed := g.ChangeTargetHumidity(60, now + 1);
    level := g.targetHumidityLevel.value;
    events := g.DomainEvents();
    tooDry := g.ChangeTargetHumidity(-1, now + 2);
    tooWet := g.ChangeTargetHumidity(101, now + 2);
  }

  /** Deleting twice succeeds both times and raises one `GardenDeleted`. */
  method MarkDeletedTwiceRaisesOneEvent(id: GardenId, userId: UserId, now: Instant)
    returns (first: Result, second: Result, deleted: bool, deletedAt: Option<Instant>, events: seq<DomainEvent>)
    ensures first.isSuccess && second.isSuccess
    ensures deleted && deletedAt == Some(now + 1)
    ensures |events| == 1 && events[0].GardenDeletedDomainEvent?
  {
    var g := ClearedGarden(id, userId, now);
    first := g.MarkDeleted(now + 1);
    second := g.MarkDeleted(now + 2);
    deleted := g.isDeleted;
    deletedAt := g.deletedAt;
    events := g.DomainEvents();
  }

  /** The buffer holds the events in the order the mutations were made. */
  method EventsKeepInvocationOrder(id: GardenId, userId: UserId, now: Instant) returns (events: seq<DomainEvent>)
    ensures |events| == 4
    ensures events[0].GardenRenamedDomainEvent? && events[1].GardenSurfaceAreaChangedDomainEvent?
    ensures events[2].GardenTargetHumidityChangedDomainEvent? && events[3].GardenDeletedDomainEvent?
    ensures forall i :: 0 <= i < 4 ==> events[i].occurredAt == now + 1 + i
  {
    var g := ClearedGarden(id, userId, now);
    var newName := "Renamed Garden";
    assert !IsWhiteSpace(newName[0]) && !IsWhiteSpace(newName[|newName| - 1]);
    TrimOfTrimmed(newName);
    var _ := g.Rename(newName, now + 1);
    var _ := g.ChangeSurfaceArea(20.0, now + 2);
    var _ := g.ChangeTargetHumidity(60, now + 3);
    var _ := g.MarkDeleted(now + 4);
    events := g.DomainEvents();
  }

  /** `FromPersistence` as written brings a deleted garden back as not
      deleted; the corrected reading keeps the marker. */
  method RehydratingDeletedGarden(id: GardenId, userId: UserId, createdAt: Instant, deletedAt: Instant)
    returns (asWritten: bool, corrected: bool)
    ensures !asWritten
    ensures corrected
  {
    var g := Garden.FromPersistence(id, userId, MyGarden, 10.0, 50, createdAt, deletedAt, true, Some(deletedAt));
    asWritten := g.isDeleted;
    var h := Garden.FromPersistenceKeepingDeletion(id, userId, MyGarden, 10.0, 50, createdAt, deletedAt, true, Some(deletedAt));
    corrected := h.isDeleted;
  }

  const Tomato: string := "Tomato"
  const TomatoSpecies: string := "Solanum lycopersicum"

  /** `AddPlant("Tomato", "Solanum lycopersicum", Vegetable, date, area, 60, now)`
      on a garden that has room for it. */
  method AddTomato(g: Garden, plantId: PlantId, date: Instant, area: real, now: Instant) returns (r: ResultOf<Plant>)
    requires g.Valid() && area > 0.0
    requires TotalRequired(PlantStates(g.plants)) + area <= g.totalSurfaceArea.value
    modifies g
    ensures g.Valid() && !r.IsFailure() && r.value.Some? && fresh(r.value.value)
    ensures var p := r.value.value;
      && p.id == plantId
      && p.State() == PlantState(Tomato, TomatoSpecies, Vegetable, date, SurfaceArea(area), HumidityLevel(60))
      && g.Fields() == old(g.Fields()).(plants := old(g.plants) + [p], updatedAt := now)
      && PlantStates(g.plants) == old(PlantStates(g.plants)) + [p.State()]
      && g.domainEvents == old(g.domainEvents) + [PlantAddedToGardenDomainEvent(g, p, now)]
  {
    assert !IsWhiteSpace(Tomato[0]) && !IsWhiteSpace(Tomato[|Tomato| - 1]);
    assert !IsWhiteSpace(TomatoSpecies[0]) && !IsWhiteSpace(TomatoSpecies[|TomatoSpecies| - 1]);
    TrimOfTrimmed(Tomato);
    TrimOfTrimmed(TomatoSpecies);
    var errors := PlantFieldErrors(Tomato, TomatoSpecies, area, 60);
    assert errors.Keys == {};
    r := g.AddPlant(plantId, Tomato, TomatoSpecies, Vegetable, date, area, 60, now);
  }

  /** The plant tests' starting point: "My Garden" (10 square units) holding
      one tomato that requires `area`, with the buffer cleared. */
  method GardenWithTomato(id: GardenId, userId: UserId, plantId: PlantId, area: real, now: Instant)
    returns (g: Garden, plant: Plant)
    requires 0.0 < area <= 10.0
    ensures fresh(g) && fresh(plant) && g.Valid()
    ensures g.plants == [plant] && g.totalSurfaceArea == SurfaceArea(10.0) && g.domainEvents == []
    ensures plant.id == plantId
    ensures plant.State() == PlantState(Tomato, TomatoSpecies, Vegetable, now, SurfaceArea(area), HumidityLevel(60))
  {
    g := CreateMyGarden(id, userId, now);
    var added := AddTomato(g, plantId, now, area, now + 1);
    plant := added.value.value;
    g.ClearDomainEvents();
  }

  /** A plant that fits is added: the garden then holds exactly that plant and
      one `PlantAddedToGarden` event. */
  method AddPlantWithinArea(id: GardenId, userId: UserId, plantId: PlantId, now: Instant)
    returns (r: ResultOf<Plant>, plants: seq<Plant>, events: seq<DomainEvent>)
    ensures !r.IsFailure() && r.value.Some? && r.value.value.id == plantId
    ensures |plants| == 1 && plants[0] == r.value.value && plants[0].id == plantId
    ensures |events| == 1 && events[0].PlantAddedToGardenDomainEvent?
  {
    var g := ClearedGarden(id, userId, now);
    r := AddTomato(g, plantId, now, 5.0, now + 1);
    plants := g.plants;
    events := g.DomainEvents();
  }

  /** 4 + 3 exceeds an area of 5: the second plant is refused under
      `surfaceAreaRequired` and nothing is raised. */
  method AddPlantOverCapacityFails(id: GardenId, userId: UserId, now: Instant)
    returns (second: ResultOf<Plant>, events: seq<DomainEvent>)
    ensures second.IsFailure() && FailsUnder(second.error, SurfaceAreaRequiredKey)
    ensures events == []
  {
    assert !IsWhiteSpace(MyGarden[0]) && !IsWhiteSpace(MyGarden[|MyGarden| - 1]);
    TrimOfTrimmed(MyGarden);
    var errors := GardenCreateErrors(MyGarden, 5.0, 50);
    assert errors.Keys == {};
    var created := Garden.Create(id, userId, MyGarden, 5.0, 50, now);
    var g := created.value.value;
    g.ClearDomainEvents();
    var _ := AddTomato(g, PlantId(1), now, 4.0, now + 1);
    g.ClearDomainEvents();
    var cucumber := "Cucumber";
    var cucumberSpecies := "Cucumis sativus";
    assert PlantFieldErrors(cucumber, cucumberSpecies, 3.0, 60).Keys == {} by {
      assert !IsWhiteSpace(cucumber[0]) && !IsWhiteSpace(cucumberSpecies[0]);
    }
    second := g.AddPlant(PlantId(2), cucumber, cucumberSpecies, Vegetable, now, 3.0, 60, now + 2);
    events := g.DomainEvents();
  }

  /** A plant rule violated on `AddPlant` fails under that rule's key. */
  method AddPlantRejectsBadValues(id: GardenId, userId: UserId, now: Instant)
    returns (noArea: ResultOf<Plant>, negativeArea: ResultOf<Plant>, tooDry: ResultOf<Plant>, tooWet: ResultOf<Plant>)
    ensures noArea.IsFailure() && FailsUnder(noArea.error, SurfaceAreaRequiredKey)
    ensures negativeArea.IsFailure() && FailsUnder(negativeArea.error, SurfaceAreaRequiredKey)
    ensures tooDry.IsFailure() && FailsUnder(tooDry.error, IdealHumidityLevelKey)
    ensures tooWet.IsFailure() && FailsUnder(tooWet.error, IdealHumidityLevelKey)
  {
    var g := ClearedGarden(id, userId, now);
    noArea := g.AddPlant(PlantId(1), Tomato, TomatoSpecies, Vegetable, now, 0.0, 60, now + 1);
    negativeArea := g.AddPlant(PlantId(1), Tomato, TomatoSpecies, Vegetable, now, -1.0, 60, now + 1);
    tooDry := g.AddPlant(PlantId(1), Tomato, TomatoSpecies, Vegetable, now, 5.0, -1, now + 1);
    tooWet := g.AddPlant(PlantId(1), Tomato, TomatoSpecies, Vegetable, now, 5.0, 101, now + 1);
  }

  /** Renaming the tomato to a new name takes it with one `PlantRenamed`. */
  method RenamePlantTakesNewName(id: GardenId, userId: UserId, plantId: PlantId, now: Instant)
    returns (r: Result, name: string, events: seq<DomainEvent>)
    ensures r.isSuccess && name == "Cherry Tomato"
    ensures |events| == 1 && events[0].PlantRenamedDomainEvent?
  {
    var g, plant := GardenWithTomato(id, userId, plantId, 5.0, now);
    var newName := "Cherry Tomato";
    assert !IsWhiteSpace(newName[0]) && !IsWhiteSpace(newName[|newName| - 1]);
    TrimOfTrimmed(newName);
    r := g.RenamePlant(plantId, newName, now + 2);
    name := plant.name;
    events := g.DomainEvents();
  }

  /** Renaming the tomato to its own name is silent. */
  method RenamePlantToSameNameIsSilent(id: GardenId, userId: UserId, plantId: PlantId, now: Instant)
    returns (r: Result, events: seq<DomainEvent>)
    ensures r.isSuccess && events == []
  {
    var g, _ := GardenWithTomato(id, userId, plantId, 5.0, now);
    assert !IsWhiteSpace(Tomato[0]) && !IsWhiteSpace(Tomato[|Tomato| - 1]);
    TrimOfTrimmed(Tomato);
    r := g.RenamePlant(plantId, Tomato, now + 2);
    events := g.DomainEvents();
  }

  /** A blank plant name fails under `name`. */
  method RenamePlantToBlankFails(id: GardenId, userId: UserId, plantId: PlantId, now: Instant)
    returns (r: Result)
    ensures r.IsFailure() && FailsUnder(r.error, NameKey)
  {
    var g, _ := GardenWithTomato(id, userId, plantId, 5.0, now);
    r := g.RenamePlant(plantId, "  ", now + 2);
  }

  /** A new species and type are both taken with one `PlantReclassified`. */
  method ReclassifyPlantTakesNewClass(id: GardenId, userId: UserId, plantId: PlantId, now: Instant)
    returns (r: Result, species: string, plantType: PlantType, events: seq<DomainEvent>)
    ensures r.isSuccess && species == "Solanum lycopersicum var. cerasiforme" && plantType == Fruit
    ensures |events| == 1 && events[0].PlantReclassifiedDomainEvent?
  {
    var g, plant := GardenWithTomato(id, userId, plantId, 5.0, now);
    var newSpecies := "Solanum lycopersicum var. cerasiforme";
    assert !IsWhiteSpace(newSpecies[0]) && !IsWhiteSpace(newSpecies[|newSpecies| - 1]);
    TrimOfTrimmed(newSpecies);
    r := g.ReclassifyPlant(plantId, newSpecies, Fruit, now + 2);
    species := plant.species;
    plantType := plant.plantType;
    events := g.DomainEvents();
  }

  /** Reclassifying the tomato with its own species and type is silent. */
  method ReclassifyPlantToSameClassIsSilent(id: GardenId, userId: UserId, plantId: PlantId, now: Instant)
    returns (r: Result, events: seq<DomainEvent>)
    ensures r.isSuccess && events == []
  {
    var g, plant := GardenWithTomato(id, userId, plantId, 5.0, now);
    assert !IsWhiteSpace(TomatoSpecies[0]) && !IsWhiteSpace(TomatoSpecies[|TomatoSpecies| - 1]);
    TrimOfTrimmed(TomatoSpecies);
    r := g.ReclassifyPlant(plantId, plant.species, plant.plantType, now + 2);
    events := g.DomainEvents();
  }

  /** With room, a new requirement is taken with one event. */
  method DefineSurfaceAreaWithinCapacity(id: GardenId, userId: UserId, plantId: PlantId, now: Instant)
    returns (r: Result, area: real, events: seq<DomainEvent>)
    ensures r.isSuccess && area == 6.0
    ensures |events| == 1 && events[0].PlantSurfaceAreaRequirementChangedDomainEvent?
  {
    var g, plant := GardenWithTomato(id, userId, plantId, 5.0, now);
    r := g.DefineSurfaceAreaRequirement(plantId, 6.0, now + 2);
    area := plant.surfaceAreaRequired.value;
    events := g.DomainEvents();
  }

  /** Plants of 6 and 4 in an area of 10: raising the first to 7 (7 + 4 > 10)
      fails under `surfaceAreaRequired` and raises nothing. */
  method DefineSurfaceAreaOverCapacityFails(id: GardenId, userId: UserId, now: Instant)
    returns (r: Result, events: seq<DomainEvent>)
    ensures r.IsFailure() && FailsUnder(r.error, SurfaceAreaRequiredKey)
    ensures events == []
  {
    var g := GardenWithTwoPlants(id, userId, now);
    r := g.DefineSurfaceAreaRequirement(PlantId(1), 7.0, now + 3);
    events := g.DomainEvents();
  }

  /** "My Garden" holding plants of 6 and 4 (ids 1 and 2), buffer cleared. */
  method GardenWithTwoPlants(id: GardenId, userId: UserId, now: Instant) returns (g: Garden)
    ensures fresh(g) && g.Valid() && g.domainEvents == [] && g.totalSurfaceArea == SurfaceArea(10.0)
    ensures |g.plants| == 2 && fresh(g.plants[0]) && fresh(g.plants[1])
    ensures IndexOfPlant(g.plants, PlantId(1)) == Some(0)
    ensures TotalRequired(RemoveAt(PlantStates(g.plants), 0)) == 4.0
  {
    var first;
    g, first := GardenWithTomato(id, userId, PlantId(1), 6.0, now);
    var second := AddTomato(g, PlantId(2), now, 4.0, now + 2);
    assert RemoveAt(PlantStates(g.plants), 0) == [second.value.value.State()];
    g.ClearDomainEvents();
  }

  /** A new humidity in range is taken with one event; 101 fails under
      `idealHumidityLevel`. */
  method AdjustIdealHumidityCases(id: GardenId, userId: UserId, plantId: PlantId, now: Instant)
    returns (adjusted: Result, level: int, events: seq<DomainEvent>, tooWet: Result)
    ensures adjusted.isSuccess && level == 65
    ensures |events| == 1 && events[0].PlantIdealHumidityLevelChangedDomainEvent?
    ensures tooWet.IsFailure() && FailsUnder(tooWet.error, IdealHumidityLevelKey)
  {
    var g, plant := GardenWithTomato(id, userId, plantId, 5.0, now);
    adjusted := g.AdjustIdealHumidity(plantId, 65, now + 2);
    level := plant.idealHumidityLevel.value;
    events := g.DomainEvents();
    tooWet := g.AdjustIdealHumidity(plantId, 101, now + 3);
  }

  /** Removing the tomato empties the collection with one
      `PlantRemovedFromGarden`; removing an unknown plant is silent. */
  method RemovePlantCases(id: GardenId, userId: UserId, plantId: PlantId, otherId: PlantId, now: Instant)
    returns (removed: Result, remaining: seq<Plant>, events: seq<DomainEvent>,
             missing: Result, eventsAfterMissing: seq<DomainEvent>)
    ensures removed.isSuccess && remaining == []
    ensures |events| == 1 && events[0].PlantRemovedFromGardenDomainEvent?
    ensures missing.isSuccess && eventsAfterMissing == []
  {
    var g, _ := GardenWithTomato(id, userId, plantId, 5.0, now);
    removed := g.RemovePlant(plantId, now + 2);
    remaining := g.plants;
    events := g.DomainEvents();
    var h := ClearedGarden(id, userId, now);
    missing := h.RemovePlant(otherId, now + 1);
    eventsAfterMissing := h.DomainEvents();
  }

  /** `ChangeSurfaceArea` does not look at the plants: shrinking a garden
      below what its plants require succeeds. */
  method ShrinkingBelowPlantsSucceeds(id: GardenId, userId: UserId, plantId: PlantId, now: Instant)
    returns (r: Result, area: real, required: real)
    ensures r.isSuccess && area == 1.0 && required == 5.0
    ensures required > area
  {
    var g, plant := GardenWithTomato(id, userId, plantId, 5.0, now);
    r := g.ChangeSurfaceArea(1.0, now + 2);
    area := g.totalSurfaceArea.value;
    assert plant.surfaceAreaRequired == SurfaceArea(5.0);
    var states := PlantStates(g.plants);
    assert states == [plant.State()] && states[..0] == [];
    assert TotalRequired(states) == TotalRequired([]) + 5.0;
    required := TotalRequired(states);
  }

  /** Messages are built from the garden as it is when they are published:
      a garden created and then renamed before publishing yields a
      `GardenCreated` that already carries the new name. */
  method MessagesReadGardenAtPublishTime(id: GardenId, userId: UserId, now: Instant)
    returns (messages: seq<IntegrationMessage>)
    ensures |messages| == 2
    ensures messages[0].GardenCreated? && messages[0].name == "Renamed Garden" && messages[0].occurredAt == now
    ensures messages[1].GardenRenamed? && messages[1].name == "Renamed Garden" && messages[1].occurredAt == now + 1
  {
    var g := CreateMyGarden(id, userId, now);
    var newName := "Renamed Garden";
    assert !IsWhiteSpace(newName[0]) && !IsWhiteSpace(newName[|newName| - 1]);
    TrimOfTrimmed(newName);
    var _ := g.Rename(newName, now + 1);
    var events := g.DomainEvents();
    var observed := Observe(events);
    assert observed == [observed[0]] + [observed[1]];
    TranslateAppend([observed[0]], [observed[1]]);
    TranslateSingle(observed[0]);
    TranslateSingle(observed[1]);
    messages := Outgoing(events);
  }

  /** A batch whose only garden-level event is its first translates to that
      event's message and hands back only that event's garden. */
  lemma OnlyFirstEventIsGardenLevel(events: seq<DomainEvent>)
    requires |events| > 0 && events[0].IsGardenLevel()
    requires forall i :: 1 <= i < |events| ==> !events[i].IsGardenLevel()
    ensures Outgoing(events) == Message(Observation(events[0], ViewOf(events[0].garden)))
    ensures HandledGardens(events) == {events[0].garden}
  {
    var observed := Observe(events);
    var rest := observed[1..];
    assert observed == [observed[0]] + rest;
    assert forall i :: 0 <= i < |rest| ==> !rest[i].event.IsGardenLevel() by {
      forall i | 0 <= i < |rest| ensures !rest[i].event.IsGardenLevel() {
        assert rest[i] == observed[i + 1];
      }
    }
    TranslateAppend([observed[0]], rest);
    TranslateSingle(observed[0]);
    SilentEventsTranslateToNothing(rest);
    OnlyFirstGardenIsHandled(events);
  }

  /** A batch whose only garden-level event is its first hands back only that
      event's garden. */
  lemma OnlyFirstGardenIsHandled(events: seq<DomainEvent>)
    requires |events| > 0 && events[0].IsGardenLevel()
    requires forall i :: 1 <= i < |events| ==> !events[i].IsGardenLevel()
    ensures HandledGardens(events) == {events[0].garden}
  {
    forall g | g in HandledGardens(events) ensures g == events[0].garden {
      var i :| 0 <= i < |events| && events[i].IsGardenLevel() && events[i].garden == g;
    }
  }

  /** A garden created with a tomato: its buffer holds the creation, then the
      plant's addition. */
  method CreatedGardenWithTomato(id: GardenId, userId: UserId, now: Instant) returns (g: Garden)
    ensures fresh(g) && g.id == id
    ensures |g.domainEvents| == 2
    ensures g.domainEvents[0] == GardenCreatedDomainEvent(g, now) && g.domainEvents[1].PlantAddedToGardenDomainEvent?
  {
    g := CreateMyGarden(id, userId, now);
    var _ := AddTomato(g, PlantId(1), now, 5.0, now + 1);
  }

  /** A garden whose buffer holds only a tomato's addition. */
  method GardenWithPendingTomato(id: GardenId, userId: UserId, now: Instant) returns (h: Garden)
    ensures fresh(h)
    ensures |h.domainEvents| == 1 && h.domainEvents[0].PlantAddedToGardenDomainEvent?
  {
    h := ClearedGarden(id, userId, now);
    var _ := AddTomato(h, PlantId(2), now, 5.0, now + 1);
  }

  /** Publishing a batch made of the buffer of `g`, a creation followed by a
      plant event, and that of `h`, a plant event alone: only the creation is
      sent, and on completion only the buffer of `g` is cleared. */
  method PublishBothBuffers(g: Garden, h: Garden, now: Instant)
    returns (completed: bool, published: seq<IntegrationMessage>,
             handledPending: seq<DomainEvent>, otherPending: seq<DomainEvent>)
    requires g != h
    requires |g.domainEvents| == 2
    requires g.domainEvents[0] == GardenCreatedDomainEvent(g, now) && g.domainEvents[1].PlantAddedToGardenDomainEvent?
    requires |h.domainEvents| == 1 && h.domainEvents[0].PlantAddedToGardenDomainEvent?
    modifies g
    ensures |published| <= 1
    ensures completed <==> |published| == 1
    ensures completed ==> published[0].GardenCreated? && published[0].gardenId == g.id.value
    ensures completed ==> handledPending == []
    ensures otherPending == old(h.domainEvents)
  {
    var endpoint := new PublishEndpoint();
    var publisher := new GardenIntegrationEventPublisher(endpoint);
    var events := g.DomainEvents() + h.DomainEvents();
    OnlyFirstEventIsGardenLevel(events);
    completed := publisher.PublishIntegrationEvents(events);
    published := endpoint.published;
    handledPending := g.DomainEvents();
    otherPending := h.DomainEvents();
  }

  /** Publishing the buffers of two gardens sends only the first garden's
      creation, and on completion clears only the first garden's buffer: the
      garden met only through a plant event keeps its pending event. */
  method PublishingSkipsPlantEvents(id: GardenId, otherId: GardenId, userId: UserId, now: Instant)
    returns (completed: bool, published: seq<IntegrationMessage>,
             handledPending: seq<DomainEvent>, otherPending: seq<DomainEvent>)
    ensures |published| <= 1
    ensures completed <==> |published| == 1
    ensures completed ==> published[0].GardenCreated? && published[0].gardenId == id.value
    ensures completed ==> handledPending == []
    ensures |otherPending| == 1 && otherPending[0].PlantAddedToGardenDomainEvent?
  {
    var g := CreatedGardenWithTomato(id, userId, now);
    var h := GardenWithPendingTomato(otherId, userId, now);
    completed, published, handledPending, otherPending := PublishBothBuffers(g, h, now);
  }
}
