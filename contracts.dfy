/** The integration messages the management service publishes about gardens
    (the `OMG.Messaging.Contracts.Management` records). Each carries the
    garden and owner identifiers, the time of the change and two tracing
    identifiers that may be absent. */
module ManagementContracts {
  import opened Common
  import opened ValueObjects

  datatype IntegrationMessage =
    | GardenCreated(gardenId: Guid, userId: Guid, name: string, totalSurfaceArea: real, targetHumidityLevel: int,
                    occurredAt: Instant, correlationId: Option<string>, causationId: Option<string>)
    | GardenRenamed(gardenId: Guid, userId: Guid, name: string,
                    occurredAt: Instant, correlationId: Option<string>, causationId: Option<string>)
    | GardenSurfaceAreaChanged(gardenId: Guid, userId: Guid, totalSurfaceArea: real,
                               occurredAt: Instant, correlationId: Option<string>, causationId: Option<string>)
    | GardenTargetHumidityChanged(gardenId: Guid, userId: Guid, targetHumidityLevel: int,
                                  occurredAt: Instant, correlationId: Option<string>, causationId: Option<string>)
    | GardenDeleted(gardenId: Guid, userId: Guid,
                    occurredAt: Instant, correlationId: Option<string>, causationId: Option<string>)
}
