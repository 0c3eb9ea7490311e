# Garden management domain

This project models the garden management core of OMG in Dafny, together with the step that publishes its integration messages:

- **The `Garden` aggregate root.** Its identity, name, total surface area, target humidity, timestamps and soft-delete marker. It also holds its pending-event buffer, which the source inherits from `AggregateRoot`.
- **The `Plant` child entity.** Its validating factory, and the plant operations on a garden.
- **The value objects.** `GardenId`, `UserId`, `PlantId`, `SurfaceArea` and `HumidityLevel`.
- **The result types.** `Result`, `Result<T>` and `Error`.
- **Events and messages.** The twelve domain-event records and the five integration-message records.
- **`GardenIntegrationEventPublisher`.** It turns a batch of domain events into messages, in order, and then clears the buffers of the gardens it handled.

## How the model is built

- **Modules.** There is one module per part of the source:
  - `Common`: results and errors.
  - `Text`: the .NET white-space test and `Trim`.
  - `ValueObjects`.
  - `Plants`.
  - `Gardens`: domain events, the garden and its plant operations.
  - `ManagementContracts`: integration messages.
  - `Messaging`: the publisher.
  - `GardenScenarios`: the behaviour the domain tests pin down, written as client methods.
- **Gardens and plants are classes.** `Garden` and `Plant` are classes whose methods update fields in place. The event buffer is a `seq` field of `Garden`, because `AggregateRoot` has no other subclass.
- **Every mutator has a value-level partner.**
  - Each garden mutator is proved against a transition function over a snapshot of the garden's fields (`GardenFields`), for example `RenameTransition`. Each plant update is proved against a transition over the plant's properties (`PlantState`).
  - The method's postcondition says that the returned result, the new fields and the new buffer are exactly what that transition gives.
  - Lemmas about the transitions then state the shared discipline: a failure changes nothing, an event is raised exactly when something changes, validity is preserved, and repeating a change is silent.
- **Type mappings.** `decimal` is `real`, `DateTimeOffset` is an `int` instant, and a `Guid` is a `nat`. Fresh identifiers (`Guid.NewGuid()`) and the clock are parameters.
- **Messages are observed at publish time.** Domain events hold references to the live garden. The message of an event is therefore a pure function of the event and of the garden as it is at the moment of publishing (`Observation`, `ViewOf`). The publisher is proved to send `Translate(Observe(events))` as it was on entry: one message per garden-level event, in order.
- **The transport may fail.** `PublishEndpoint.Publish` either accepts a message or fails, nondeterministically. A failure stands for the exception that ends the source method.

## Model

| member | source | states |
|---|---|---|
| Common.Result.Success | src/OMG.Management.Domain/Common/Result.cs:21 | a success: `IsSuccess`, not `IsFailure`, no error |
| Common.Result.Failure | src/OMG.Management.Domain/Common/Result.cs:23-24 | a failure carrying exactly `Error(code, message, validationErrors)` |
| Common.ResultOf.AsResult | src/OMG.Management.Domain/Common/Result.cs:27-35 | `Result<T>` seen as its base `Result` keeps the flag and the error |
| Common.ResultOf.Success | src/OMG.Management.Domain/Common/Result.cs:37 | carries the value and no error, and is `Result.Success()` seen as a base result |
| Common.ResultOf.Failure | src/OMG.Management.Domain/Common/Result.cs:39-40 | carries no value and the given error, and is `Result.Failure` seen as a base result |
| ValueObjects.GardenId.From | src/OMG.Management.Domain/Gardens/ValueObjects.cs:7 | wraps the identifier unchanged |
| ValueObjects.UserId.From | src/OMG.Management.Domain/Gardens/ValueObjects.cs:12 | wraps the identifier unchanged |
| ValueObjects.SurfaceArea.From | src/OMG.Management.Domain/Gardens/ValueObjects.cs:17-25 | rejects a value exactly when it is not positive; otherwise holds that value |
| ValueObjects.HumidityLevel.From | src/OMG.Management.Domain/Gardens/ValueObjects.cs:30-38 | rejects a value exactly when it is outside [0, 100]; otherwise holds that value |
| Plants.PlantId.From | src/OMG.Management.Domain/Gardens/Plant.cs:9 | wraps the identifier unchanged |
| Text.IsWhiteSpace | src/OMG.Management.Domain/Gardens/Garden.cs:74 | the characters `char.IsWhiteSpace` accepts: U+0009 to U+000D, U+0085 and the Unicode space, line and paragraph separators |
| Text.IsNullOrWhiteSpace | src/OMG.Management.Domain/Gardens/Garden.cs:74 | blank exactly when every character is white space (the empty string included), decided by a scan that stops at the first other character |
| Text.Trim | src/OMG.Management.Domain/Gardens/Garden.cs:100 | the result is a slice of the input with only white space cut away on both sides, and does not start or end with white space; it is empty exactly when the input is blank |
| Text.TrimOfIsUnique | src/OMG.Management.Domain/Gardens/Garden.cs:128 | any string that meets the trimmed-form description is `Trim`'s result, so the description characterises `Trim` fully |
| Text.TrimIdempotent | src/OMG.Management.Domain/Gardens/Garden.cs:128-133 | trimming a trimmed string changes nothing |
| Text.TrimOfTrimmed | src/OMG.Management.Domain/Gardens/Garden.cs:128-133 | a non-empty string whose ends are not white space is its own trim |
| Text.TrimOfNonBlankIsNonBlank | src/OMG.Management.Domain/Gardens/Plant.cs:63-94 | a string that is not blank trims to one that is not blank |
| Plants.PlantFieldErrors | src/OMG.Management.Domain/Gardens/Plant.cs:61-81 | each of the four plant rules is violated exactly when its key is present, with its message, and no other key is present |
| Plants.ValidatedPlantFields | src/OMG.Management.Domain/Gardens/Plant.cs:83-98 | inputs that pass the rules give, once trimmed, a non-blank trimmed name and species, a positive area and a humidity in range |
| Plants.Plant.constructor | src/OMG.Management.Domain/Gardens/Plant.cs:21-37 | stores every argument unchanged, without validation |
| Plants.Plant.Create | src/OMG.Management.Domain/Gardens/Plant.cs:53-101 | fails with the plant code, the creation message, exactly the collected errors and no value iff some rule is violated; otherwise a fresh plant with trimmed name and species, the other inputs unchanged, and valid fields |
| Gardens.GardenCreateErrors | src/OMG.Management.Domain/Gardens/Garden.cs:72-87 | each of the three garden rules is violated exactly when its key is present, with its message, and no other key is present |
| Gardens.RenameTransition | src/OMG.Management.Domain/Gardens/Garden.cs:111-141 | fails under `name` iff the name is blank, changing nothing; otherwise succeeds with the trimmed name; an event is raised exactly when the trimmed name differs from the current one, and then only the name and `UpdatedAt` change; otherwise nothing changes |
| Gardens.ChangeSurfaceAreaTransition | src/OMG.Management.Domain/Gardens/Garden.cs:143-169 | fails under `totalSurfaceArea` iff the value is not positive; otherwise the area equals the value; an event is raised exactly when a positive value differs from the current area, touching only the area and `UpdatedAt`; an equal value changes nothing |
| Gardens.ChangeTargetHumidityTransition | src/OMG.Management.Domain/Gardens/Garden.cs:171-197 | fails under `targetHumidityLevel` iff the value is outside [0, 100]; otherwise the humidity equals the value; an event is raised exactly when a value in range differs from the current one, touching only the humidity and `UpdatedAt`; an equal value changes nothing |
| Gardens.MarkDeletedTransition | src/OMG.Management.Domain/Gardens/Garden.cs:199-212 | always succeeds and leaves the garden deleted; an event is raised iff it was not deleted, and then the deletion time and `UpdatedAt` are set to now |
| Gardens.MutatorsPreserveFieldsValid | src/OMG.Management.Domain/Gardens/Garden.cs:111-212 | every garden mutator keeps a non-blank trimmed name, a positive area, a humidity in range, and a deletion time exactly when deleted |
| Gardens.MutatorsAreIdempotent | src/OMG.Management.Domain/Gardens/Garden.cs:111-212 | repeating a successful mutator with the same argument is a silent success; two `MarkDeleted` calls raise one event |
| Gardens.RenameToCurrentNameIsSilent | src/OMG.Management.Domain/Gardens/Garden.cs:128-133 | renaming a valid garden to its own name changes nothing and raises nothing |
| Gardens.Garden.constructor | src/OMG.Management.Domain/Gardens/Garden.cs:8-24 | stores the arguments; not deleted, no plants, an empty buffer |
| Gardens.Garden.DomainEvents | src/OMG.Management.Domain/Abstractions/AggregateRoot.cs:7 | exactly the buffer, in raise order |
| Gardens.Garden.RaiseDomainEvent | src/OMG.Management.Domain/Abstractions/AggregateRoot.cs:9-12 | the buffer becomes the old buffer plus the event at the end; no field changes |
| Gardens.Garden.ClearDomainEvents | src/OMG.Management.Domain/Abstractions/AggregateRoot.cs:14 | the buffer becomes empty; no field changes |
| Gardens.Garden.FromPersistence | src/OMG.Management.Domain/Gardens/Garden.cs:44-63 | as written: the stored values unvalidated, no events, and the garden not deleted whatever `deleted` and `deletedAt` say |
| Gardens.Garden.FromPersistenceKeepingDeletion | src/OMG.Management.Domain/Gardens/Garden.cs:44-63 | corrected: as above, but the stored deletion marker and time are restored |
| Gardens.Garden.Create | src/OMG.Management.Domain/Gardens/Garden.cs:65-109 | fails with the garden code, the creation message and exactly the collected errors iff some rule is violated; otherwise a fresh valid garden with the trimmed name, both timestamps set to now, not deleted, and a buffer of exactly one `GardenCreated` |
| Gardens.Garden.Rename | src/OMG.Management.Domain/Gardens/Garden.cs:111-141 | result, fields and buffer are those of `RenameTransition`; the buffer grows by one `GardenRenamed` exactly when it raises |
| Gardens.Garden.ChangeSurfaceArea | src/OMG.Management.Domain/Gardens/Garden.cs:143-169 | result, fields and buffer are those of `ChangeSurfaceAreaTransition` |
| Gardens.Garden.ChangeTargetHumidity | src/OMG.Management.Domain/Gardens/Garden.cs:171-197 | result, fields and buffer are those of `ChangeTargetHumidityTransition` |
| Gardens.Garden.MarkDeleted | src/OMG.Management.Domain/Gardens/Garden.cs:199-212 | result, fields and buffer are those of `MarkDeletedTransition` |
| Gardens.TotalRequired | test/OMG.Management.Domain.Tests/GardenPlantTests.cs:41-81 | the combined surface area the garden's plants require, summed in collection order |
| Gardens.TotalRequiredIsPositive | test/OMG.Management.Domain.Tests/GardenPlantTests.cs:41-81 | plants that each require a positive area require a positive total, and exactly none require zero |
| Gardens.Garden.WithinCapacity | test/OMG.Management.Domain.Tests/GardenPlantTests.cs:41-81 | the capacity invariant that `AddPlant` and `DefineSurfaceAreaRequirement` keep: the plants' total requirement is at most the garden's area |
| Gardens.IndexOfPlant | test/OMG.Management.Domain.Tests/GardenPlantTests.cs:318-336 | finds the first plant with the identifier, or reports that none has it |
| Gardens.AddingKeepsCapacity | test/OMG.Management.Domain.Tests/GardenPlantTests.cs:41-81 | the capacity check of `AddPlant` holds exactly when the enlarged collection fits the area |
| Gardens.ChangingRequirementKeepsCapacity | test/OMG.Management.Domain.Tests/GardenPlantTests.cs:237-251 | an accepted new requirement keeps the plants within the area, and a positive one rejected for capacity would not fit |
| Gardens.RemovingKeepsCapacity | test/OMG.Management.Domain.Tests/GardenPlantTests.cs:283-316 | removing a plant keeps a collection that fitted within the area |
| Gardens.RenamePlantTransition | test/OMG.Management.Domain.Tests/GardenPlantTests.cs:146-188 | fails under `name` iff the name is blank, changing nothing; otherwise the plant's name becomes the trimmed name; an event is raised exactly on a change |
| Gardens.ReclassifyPlantTransition | test/OMG.Management.Domain.Tests/GardenPlantTests.cs:190-219 | fails under `species` iff the species is blank; otherwise species (trimmed) and type are set; an event is raised iff either differs |
| Gardens.DefineSurfaceAreaTransition | test/OMG.Management.Domain.Tests/GardenPlantTests.cs:221-251 | fails under `surfaceAreaRequired` iff the value is not positive or does not fit beside the other plants; otherwise the requirement is set; a valid plant stays valid |
| Gardens.AdjustIdealHumidityTransition | test/OMG.Management.Domain.Tests/GardenPlantTests.cs:253-281 | fails under `idealHumidityLevel` iff the value is outside [0, 100]; otherwise it is set; a valid plant stays valid |
| Gardens.TextPlantUpdatesPreserveValidity | test/OMG.Management.Domain.Tests/GardenPlantTests.cs:146-219 | renaming and reclassifying keep a non-blank trimmed name and species |
| Gardens.PlantUpdatesAreIdempotent | test/OMG.Management.Domain.Tests/GardenPlantTests.cs:162-219 | repeating a successful plant update with the same argument is a silent success |
| Gardens.Garden.AddPlant | test/OMG.Management.Domain.Tests/GardenPlantTests.cs:8-144 | the plant rules first, then capacity; every failure is under the garden code and changes nothing; success appends one fresh plant holding the trimmed inputs and one `PlantAddedToGarden`, and keeps the plants within the area |
| Gardens.Garden.AttachPlant | test/OMG.Management.Domain.Tests/GardenPlantTests.cs:8-38 | a plant that fits is appended with its event, and the plants stay within the area |
| Gardens.Garden.RenamePlant | test/OMG.Management.Domain.Tests/GardenPlantTests.cs:146-188 | a missing plant is a silent success; otherwise result and plant follow `RenamePlantTransition`, no other plant changes, and one event is added exactly when it raises |
| Gardens.Garden.ReclassifyPlant | test/OMG.Management.Domain.Tests/GardenPlantTests.cs:190-219 | as `RenamePlant`, following `ReclassifyPlantTransition` |
| Gardens.Garden.DefineSurfaceAreaRequirement | test/OMG.Management.Domain.Tests/GardenPlantTests.cs:221-251 | as `RenamePlant`, following `DefineSurfaceAreaTransition` against the requirement of the other plants |
| Gardens.Garden.ApplySurfaceAreaRequirement | test/OMG.Management.Domain.Tests/GardenPlantTests.cs:221-235 | stores the requirement on the plant, sets `UpdatedAt` and appends one event |
| Gardens.Garden.AdjustIdealHumidity | test/OMG.Management.Domain.Tests/GardenPlantTests.cs:253-281 | as `RenamePlant`, following `AdjustIdealHumidityTransition` |
| Gardens.Garden.RemovePlant | test/OMG.Management.Domain.Tests/GardenPlantTests.cs:283-337 | always succeeds; a missing plant changes nothing; otherwise the plant leaves the collection, the others keep their order, and one `PlantRemovedFromGarden` is appended |
| Messaging.ViewOf | src/OMG.Management.Infrastructure/Messaging/GardenIntegrationEventPublisher.cs:61-68 | the identifiers, name, area and humidity the message builders read from a garden |
| Messaging.ToIntegrationMessage | src/OMG.Management.Infrastructure/Messaging/GardenIntegrationEventPublisher.cs:23-113 | a message exactly for the five garden-level kinds, of the matching kind; ids, name, area and humidity come from the observed garden, the time comes from the event, and both tracing ids are absent |
| Messaging.Message | src/OMG.Management.Infrastructure/Messaging/GardenIntegrationEventPublisher.cs:23-52 | one message for a garden-level event, none for any other |
| Messaging.Observe | src/OMG.Management.Infrastructure/Messaging/GardenIntegrationEventPublisher.cs:17-21 | pairs every event, in order, with its garden as it is now |
| Messaging.Translate | src/OMG.Management.Infrastructure/Messaging/GardenIntegrationEventPublisher.cs:21-53 | the messages the publish loop sends for the observed events, in event order; its meaning is stated by `TranslateIsOneMessagePerGardenLevelEvent` |
| Messaging.Outgoing | src/OMG.Management.Infrastructure/Messaging/GardenIntegrationEventPublisher.cs:17-53 | the messages owed for a batch, built from the gardens as they are now; at most one per event |
| Messaging.HandledGardens | src/OMG.Management.Infrastructure/Messaging/GardenIntegrationEventPublisher.cs:19-51 | the `aggregatesToClear` set: the garden of every garden-level event is in it |
| Messaging.HandledGardensComeFromGardenLevelEvents | src/OMG.Management.Infrastructure/Messaging/GardenIntegrationEventPublisher.cs:19-51 | every garden in `aggregatesToClear` belongs to a garden-level event of the batch |
| Messaging.GardenLevelEvents | src/OMG.Management.Infrastructure/Messaging/GardenIntegrationEventPublisher.cs:23-51 | the observed events that have a message: only garden-level ones, taken from the batch, and every garden-level one of the batch |
| Messaging.GardenLevelEventsAppend | src/OMG.Management.Infrastructure/Messaging/GardenIntegrationEventPublisher.cs:21-53 | the selection of garden-level events distributes over concatenation, so it keeps the events' order |
| Messaging.TranslateAppend | src/OMG.Management.Infrastructure/Messaging/GardenIntegrationEventPublisher.cs:21-53 | translating two batches in a row gives the two translations in a row |
| Messaging.TranslateIsOneMessagePerGardenLevelEvent | src/OMG.Management.Infrastructure/Messaging/GardenIntegrationEventPublisher.cs:21-53 | the translation holds one message per garden-level event, in the same order, each being that event's message |
| Messaging.SilentEventsTranslateToNothing | src/OMG.Management.Infrastructure/Messaging/GardenIntegrationEventPublisher.cs:23-52 | events without a garden-level kind translate to no message |
| Messaging.PlantEventsPublishNothing | src/OMG.Management.Infrastructure/Messaging/GardenIntegrationEventPublisher.cs:23-58 | a batch of plant events owes no message and hands back no garden to clear |
| Messaging.TranslateAround | src/OMG.Management.Infrastructure/Messaging/GardenIntegrationEventPublisher.cs:21-53 | the translation splits into the part before an event, its message, and the part after it |
| Messaging.ShortOfTranslation | src/OMG.Management.Infrastructure/Messaging/GardenIntegrationEventPublisher.cs:21-53 | stopping before a garden-level event leaves a strict prefix of the messages sent |
| Messaging.HandledGardensSnoc | src/OMG.Management.Infrastructure/Messaging/GardenIntegrationEventPublisher.cs:19-51 | one more event adds its garden to the gardens to clear exactly when the event is garden-level |
| Messaging.HandledGardensAppend | src/OMG.Management.Infrastructure/Messaging/GardenIntegrationEventPublisher.cs:19-51 | the gardens handled for two batches are those handled for each |
| Messaging.PublishEndpoint.Publish | src/OMG.Management.Infrastructure/Messaging/GardenIntegrationEventPublisher.cs:49 | either records the message at the end of what was sent, or fails and records nothing |
| Messaging.GardenIntegrationEventPublisher.PublishIntegrationEvents | src/OMG.Management.Infrastructure/Messaging/GardenIntegrationEventPublisher.cs:15-59 | earlier messages stay; what is sent is a prefix of the messages owed on entry, and all of them iff the call completes; on completion every handled garden has an empty buffer and unchanged fields; after a failure no garden changes |
| Messaging.GardenIntegrationEventPublisher.PublishMessages | src/OMG.Management.Infrastructure/Messaging/GardenIntegrationEventPublisher.cs:17-53 | sends a prefix of the translation of the observed events, all of it iff no publish fails, and then collects exactly the gardens of the garden-level events |
| Messaging.GardenIntegrationEventPublisher.PublishEvent | src/OMG.Management.Infrastructure/Messaging/GardenIntegrationEventPublisher.cs:23-51 | publishes the event's message built from the garden as it is now; only a garden-level event can fail; its garden joins the set once published |
| Messaging.GardenIntegrationEventPublisher.ClearAggregates | src/OMG.Management.Infrastructure/Messaging/GardenIntegrationEventPublisher.cs:55-58 | every collected garden ends with an empty buffer and unchanged fields |
| GardenScenarios.CreateRejectsEachBadInput | test/OMG.Management.Domain.Tests/GardenTests.cs:8-50 | an empty name, a zero area and humidities -1 and 101 each fail under their own key |
| GardenScenarios.CreateSucceedsAndRaisesEvent | test/OMG.Management.Domain.Tests/GardenTests.cs:53-70 | "My Garden" is created with one `GardenCreated` at the creation time |
| GardenScenarios.RenameRaisesOneEvent | test/OMG.Management.Domain.Tests/GardenTests.cs:73-94 | after a clear, renaming to a new name gives that name and one `GardenRenamed` |
| GardenScenarios.RenameToSameNameIsSilent | test/OMG.Management.Domain.Tests/GardenTests.cs:96-114 | renaming to the current name succeeds with no event |
| GardenScenarios.ChangeSurfaceAreaCases | test/OMG.Management.Domain.Tests/GardenTests.cs:117-182 | 20 is taken with one event, 10 is silent, and 0 and -1 fail under `totalSurfaceArea` |
| GardenScenarios.ChangeTargetHumidityCases | test/OMG.Management.Domain.Tests/GardenTests.cs:185-229 | 60 is taken with one event, and -1 and 101 fail under `targetHumidityLevel` |
| GardenScenarios.MarkDeletedTwiceRaisesOneEvent | test/OMG.Management.Domain.Tests/GardenTests.cs:232-255 | two calls both succeed, the garden is deleted at the first call's time, and there is one `GardenDeleted` |
| GardenScenarios.EventsKeepInvocationOrder | src/OMG.Management.Domain/Abstractions/AggregateRoot.cs:5-14 | four mutations after a clear leave their four events in call order |
| GardenScenarios.RehydratingDeletedGarden | src/OMG.Management.Domain/Gardens/Garden.cs:44-63 | a stored deleted garden comes back not deleted as written, and deleted when corrected |
| GardenScenarios.AddPlantWithinArea | test/OMG.Management.Domain.Tests/GardenPlantTests.cs:8-38 | a tomato within the area is added; the garden's plant collection is exactly that one plant, with the given identifier, and the buffer holds one `PlantAddedToGarden` |
| GardenScenarios.AddPlantOverCapacityFails | test/OMG.Management.Domain.Tests/GardenPlantTests.cs:41-81 | adding 3 beside 4 in an area of 5 fails under `surfaceAreaRequired` with no event |
| GardenScenarios.AddPlantRejectsBadValues | test/OMG.Management.Domain.Tests/GardenPlantTests.cs:86-144 | areas 0 and -1 and humidities -1 and 101 fail under their keys |
| GardenScenarios.RenamePlantTakesNewName | test/OMG.Management.Domain.Tests/GardenPlantTests.cs:146-160 | the plant takes "Cherry Tomato" with one `PlantRenamed` |
| GardenScenarios.RenamePlantToSameNameIsSilent | test/OMG.Management.Domain.Tests/GardenPlantTests.cs:162-174 | the same name succeeds with no event |
| GardenScenarios.RenamePlantToBlankFails | test/OMG.Management.Domain.Tests/GardenPlantTests.cs:176-188 | a blank name fails under `name` |
| GardenScenarios.ReclassifyPlantTakesNewClass | test/OMG.Management.Domain.Tests/GardenPlantTests.cs:190-205 | a new species and type are taken with one `PlantReclassified` |
| GardenScenarios.ReclassifyPlantToSameClassIsSilent | test/OMG.Management.Domain.Tests/GardenPlantTests.cs:207-219 | the same species and type succeed with no event |
| GardenScenarios.DefineSurfaceAreaWithinCapacity | test/OMG.Management.Domain.Tests/GardenPlantTests.cs:221-235 | a requirement of 6 that fits is taken with one event |
| GardenScenarios.DefineSurfaceAreaOverCapacityFails | test/OMG.Management.Domain.Tests/GardenPlantTests.cs:237-251 | 7 beside 4 in an area of 10 fails under `surfaceAreaRequired` with no event |
| GardenScenarios.AdjustIdealHumidityCases | test/OMG.Management.Domain.Tests/GardenPlantTests.cs:253-281 | 65 is taken with one event, and 101 fails under `idealHumidityLevel` |
| GardenScenarios.RemovePlantCases | test/OMG.Management.Domain.Tests/GardenPlantTests.cs:283-337 | removing the plant empties the collection with one event; removing an absent one is a silent success |
| GardenScenarios.ShrinkingBelowPlantsSucceeds | src/OMG.Management.Domain/Gardens/Garden.cs:143-169 | the area can shrink below what the plants require, because `ChangeSurfaceArea` does not check them |
| GardenScenarios.MessagesReadGardenAtPublishTime | src/OMG.Management.Infrastructure/Messaging/GardenIntegrationEventPublisher.cs:61-87 | a garden created and then renamed before publishing yields a `GardenCreated` and a `GardenRenamed` that both carry the new name, each with its own event's time |
| GardenScenarios.OnlyFirstEventIsGardenLevel | src/OMG.Management.Infrastructure/Messaging/GardenIntegrationEventPublisher.cs:21-58 | a batch whose only garden-level event is the first one owes exactly that event's message and clears only its garden |
| GardenScenarios.OnlyFirstGardenIsHandled | src/OMG.Management.Infrastructure/Messaging/GardenIntegrationEventPublisher.cs:19-51 | such a batch hands back only the first event's garden |
| GardenScenarios.PublishBothBuffers | src/OMG.Management.Infrastructure/Messaging/GardenIntegrationEventPublisher.cs:15-59 | publishing a creation, a plant event and another garden's plant event sends only the creation; on completion only the first buffer is cleared |
| GardenScenarios.PublishingSkipsPlantEvents | src/OMG.Management.Infrastructure/Messaging/GardenIntegrationEventPublisher.cs:15-59 | as above, for two gardens built from scratch: the garden met only through a plant event keeps its pending event |

## Left out

- HTTP endpoints, EF Core persistence (repositories, entities, migrations, the soft-delete query filter, row-version concurrency), the RabbitMQ/MassTransit wiring and the host: plumbing around the aggregate with no domain logic of its own.
- `async`, `await` and cancellation tokens: the publisher is modelled as a sequential loop, and an exception from the transport as a failed publish that ends the call.
- `Guid.NewGuid()` and `DateTimeOffset.UtcNow`: the identifier and the time are parameters.
- The `Garden` source in this repository declares no plant collection and no plant operations, while the domain tests call them. `AddPlant`, `RenamePlant`, `ReclassifyPlant`, `DefineSurfaceAreaRequirement`, `AdjustIdealHumidity` and `RemovePlant` are therefore reconstructed: the behaviour the tests pin down, plus the same pattern as the garden mutators where the tests are silent. Their overall failure messages are placeholders. The reconstruction choices that no test pins down follow.
- Gardens.RenamePlantTransition, Gardens.ReclassifyPlantTransition, Gardens.DefineSurfaceAreaTransition and Gardens.AdjustIdealHumidityTransition: a failure carries the garden validation code, as the `AddPlant` tests assert for adding. The tests of the plant updates assert only the error key, and the API's own plant-update errors use the plant code, so the real code may be the plant's.
- Gardens.DefineSurfaceAreaTransition: the capacity check comes before the unchanged-value check. On a garden that is already over capacity (possible, since `ChangeSurfaceArea` ignores the plants), submitting a plant's current requirement again fails instead of being a silent success. No test decides this order.
- `SetPlantationDate`: the API calls it (src/OMG.Api/Management/ManagementPlantEndpoints.cs:233), but its body is not in the modelled `Garden.cs` and no domain test pins it down. Its date rule is out of scope, so the model never raises `PlantPlantationDateChanged`, although the event kind exists.
- Gardens.Garden.AddPlant: `plantId` stands for `PlantId.New()`, a fresh identifier, but the model does not require it to differ from the identifiers already in the garden. With two plants sharing an identifier, `IndexOfPlant`, and with it every plant update and `RemovePlant`, acts on the first of them only.
- The 10-argument `FromPersistence` that the repository layer calls (with plants) is not part of this model. The 9-argument one in `Garden.cs` is modelled.
- The text of `ErrorCodes.PlantValidationFailed`: `ErrorCodes` is not part of this model. Its value is assumed to be "Plant.ValidationFailed"; the model only relies on it differing from the garden code.
- The validation dictionaries compare keys with `OrdinalIgnoreCase`. The model uses exact keys, which is the same here because every key is written once, each with distinct spelling.
- Strings are sequences of characters. UTF-16 surrogate pairs are not distinguished; `char.IsWhiteSpace` is modelled by its list of white-space characters.
- `Gardens.Garden.DefineSurfaceAreaRequirement`: its postcondition does not repeat that the plants stay within the garden's area. That follows from the method's contract together with `Gardens.ChangingRequirementKeepsCapacity`, which is stated as a lemma so the method's proof stays small.
- `Messaging.PublishEndpoint.Publish`: whether the transport accepts a message is not modelled; it may fail at any publish.
- Gardens.Garden.DomainEvents: the source returns a live read-only view of the buffer, while the model returns the buffer's value. The publisher's `ToList` snapshot at GardenIntegrationEventPublisher.cs:17 therefore holds in the model without being modelled; a caller that keeps the view and watches it change later is not modelled.
- The order in which `HashSet` enumerates the gardens to clear is not modelled. The clearing loop picks any remaining garden; the result does not depend on the order.

## Findings

| source | as written | input that shows it | evidently intended | confidence | as-written member | corrected member |
|---|---|---|---|---|---|---|
| src/OMG.Management.Domain/Gardens/Garden.cs:44-63 | `FromPersistence` takes `deleted` and `deletedAt` but never stores them, so every rehydrated garden reads as not deleted | `FromPersistence(id, user, "My Garden", 10, 50, t0, t1, true, t1)` returns a garden with `IsDeleted == false` and `DeletedAt == null` | the stored deletion marker and time are restored | medium, not executed (the soft-delete query filter usually keeps deleted rows from being loaded) | Gardens.Garden.FromPersistence, GardenScenarios.RehydratingDeletedGarden | Gardens.Garden.FromPersistenceKeepingDeletion |
