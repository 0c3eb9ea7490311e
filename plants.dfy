/** The `Plant` child entity of a garden: its identifier, its type, the entity
    whose fields the garden updates in place, and its validating factory. */
module Plants {
  import opened Common
  import opened Text
  import opened ValueObjects

  /** `PlantId(Guid Value)`; `PlantId.New()` draws a fresh `Guid`, which the
      model takes as a parameter. */
  datatype PlantId = PlantId(value: Guid) {
    static function From(value: Guid): (id: PlantId)
      ensures id.value == value
    {
      PlantId(value)
    }
  }

  datatype PlantType = Vegetable | Fruit | Flower

  // Validation keys and messages of the plant rules.
  const NameKey: string := "name"
  const SpeciesKey: string := "species"
  const SurfaceAreaRequiredKey: string := "surfaceAreaRequired"
  const IdealHumidityLevelKey: string := "idealHumidityLevel"
  const NameRequiredMessage: string := "Name is required."
  const SpeciesRequiredMessage: string := "Species is required."
  const SurfaceAreaRequiredMessage: string := "Surface area required must be greater than zero."
  const IdealHumidityLevelMessage: string := "Ideal humidity level must be between 0 and 100."
  const CreatePlantFailedMessage: string := "One or more validation errors occurred while creating a plant."

  /** The field-keyed errors of the four plant rules. Every violated rule is
      recorded under its own key, not only the first one, and nothing else is. */
  function PlantFieldErrors(name: string, species: string, surfaceAreaRequired: real, idealHumidityLevel: int)
    : (errors: ValidationErrors)
    ensures NameKey in errors <==> IsNullOrWhiteSpace(name)
    ensures SpeciesKey in errors <==> IsNullOrWhiteSpace(species)
    ensures SurfaceAreaRequiredKey in errors <==> surfaceAreaRequired <= 0.0
    ensures IdealHumidityLevelKey in errors <==> !InHumidityRange(idealHumidityLevel)
    ensures errors.Keys <= {NameKey, SpeciesKey, SurfaceAreaRequiredKey, IdealHumidityLevelKey}
    ensures NameKey in errors ==> errors[NameKey] == [NameRequiredMessage]
    ensures SpeciesKey in errors ==> errors[SpeciesKey] == [SpeciesRequiredMessage]
    ensures SurfaceAreaRequiredKey in errors ==> errors[SurfaceAreaRequiredKey] == [SurfaceAreaRequiredMessage]
    ensures IdealHumidityLevelKey in errors ==> errors[IdealHumidityLevelKey] == [IdealHumidityLevelMessage]
  {
    var withName: ValidationErrors :=
      if IsNullOrWhiteSpace(name) then map[NameKey := [NameRequiredMessage]] else map[];
    var withSpecies :=
      if IsNullOrWhiteSpace(species) then withName[SpeciesKey := [SpeciesRequiredMessage]] else withName;
    var withArea :=
      if surfaceAreaRequired <= 0.0 then withSpecies[SurfaceAreaRequiredKey := [SurfaceAreaRequiredMessage]] else withSpecies;
    if !InHumidityRange(idealHumidityLevel) then withArea[IdealHumidityLevelKey := [IdealHumidityLevelMessage]] else withArea
  }

  /** The field invariants of a plant that went through validation: trimmed
      non-blank name and species, positive area, humidity in range. */
  ghost predicate ValidPlantFields(name: string, species: string, surfaceAreaRequired: SurfaceArea, idealHumidityLevel: HumidityLevel) {
    && !IsNullOrWhiteSpace(name) && Trim(name) == name
    && !IsNullOrWhiteSpace(species) && Trim(species) == species
    && surfaceAreaRequired.value > 0.0
    && InHumidityRange(idealHumidityLevel.value)
  }

  /** Inputs that pass the plant rules give valid fields once trimmed. */
  lemma ValidatedPlantFields(name: string, species: string, surfaceAreaRequired: real, idealHumidityLevel: int)
    requires PlantFieldErrors(name, species, surfaceAreaRequired, idealHumidityLevel) == map[]
    ensures ValidPlantFields(Trim(name), Trim(species), SurfaceArea(surfaceAreaRequired), HumidityLevel(idealHumidityLevel))
  {
    assert NameKey !in PlantFieldErrors(name, species, surfaceAreaRequired, idealHumidityLevel);
    assert SpeciesKey !in PlantFieldErrors(name, species, surfaceAreaRequired, idealHumidityLevel);
    TrimOfNonBlankIsNonBlank(name);
    TrimOfNonBlankIsNonBlank(species);
    TrimIdempotent(name);
    TrimIdempotent(species);
  }

  /** The mutable properties of a plant at one moment. */
  datatype PlantState = PlantState(
    name: string,
    species: string,
    plantType: PlantType,
    plantationDate: Instant,
    surfaceAreaRequired: SurfaceArea,
    idealHumidityLevel: HumidityLevel)

  /** A plant. Its identifier never changes; the other properties have
      `internal` setters through which the owning garden updates them in place. */
  class Plant {
    const id: PlantId
    var name: string
    var species: string
    var plantType: PlantType
    var plantationDate: Instant
    var surfaceAreaRequired: SurfaceArea
    var idealHumidityLevel: HumidityLevel

    function State(): PlantState
      reads this
    {
      PlantState(name, species, plantType, plantationDate, surfaceAreaRequired, idealHumidityLevel)
    }

    /** The public constructor stores its arguments as they are, without
        validating them. */
    constructor (id: PlantId, name: string, species: string, plantType: PlantType, plantationDate: Instant,
                 surfaceAreaRequired: SurfaceArea, idealHumidityLevel: HumidityLevel)
      ensures this.id == id && this.name == name && this.species == species && this.plantType == plantType
      ensures this.plantationDate == plantationDate && this.surfaceAreaRequired == surfaceAreaRequired
      ensures this.idealHumidityLevel == idealHumidityLevel
      ensures State() == PlantState(name, species, plantType, plantationDate, surfaceAreaRequired, idealHumidityLevel)
    {
      this.id := id;
      this.name := name;
      this.species := species;
      this.plantType := plantType;
      this.plantationDate := plantationDate;
      this.surfaceAreaRequired := surfaceAreaRequired;
      this.idealHumidityLevel := idealHumidityLevel;
    }

    /** `Plant.Create`: collects an error for every violated rule and fails
        with `PlantValidationFailed` and no value if there is any; otherwise
        returns a new plant with trimmed name and species and the other inputs
        stored unchanged. `id` stands for `PlantId.New()`. */
    static method Create(id: PlantId, name: string, species: string, plantType: PlantType, plantationDate: Instant,
                         surfaceAreaRequired: real, idealHumidityLevel: int)
      returns (r: ResultOf<Plant>)
      ensures var errors := PlantFieldErrors(name, species, surfaceAreaRequired, idealHumidityLevel);
        && (r.IsFailure() <==> errors != map[])
        && (r.IsFailure() ==> r == ResultOf<Plant>.Failure(PlantValidationFailed, CreatePlantFailedMessage, Some(errors)))
      ensures !r.IsFailure() ==>
        && r.error == None && r.value.Some? && fresh(r.value.value)
        && var p := r.value.value;
        && p.id == id && p.name == Trim(name) && p.species == Trim(species) && p.plantType == plantType
        && p.plantationDate == plantationDate && p.surfaceAreaRequired == SurfaceArea(surfaceAreaRequired)
        && p.idealHumidityLevel == HumidityLevel(idealHumidityLevel)
        && ValidPlantFields(p.name, p.species, p.surfaceAreaRequired, p.idealHumidityLevel)
    {
      var validationErrors: ValidationErrors := map[];
      if IsNullOrWhiteSpace(name) {
        validationErrors := validationErrors[NameKey := [NameRequiredMessage]];
      }
      if IsNullOrWhiteSpace(species) {
        validationErrors := validationErrors[SpeciesKey := [SpeciesRequiredMessage]];
      }
      if surfaceAreaRequired <= 0.0 {
        validationErrors := validationErrors[SurfaceAreaRequiredKey := [SurfaceAreaRequiredMessage]];
      }
      if !InHumidityRange(idealHumidityLevel) {
        validationErrors := validationErrors[IdealHumidityLevelKey := [IdealHumidityLevelMessage]];
      }
      assert validationErrors == PlantFieldErrors(name, species, surfaceAreaRequired, idealHumidityLevel);
      if |validationErrors| > 0 {
        return ResultOf<Plant>.Failure(PlantValidationFailed, CreatePlantFailedMessage, Some(validationErrors));
      }
      ValidatedPlantFields(name, species, surfaceAreaRequired, idealHumidityLevel);
      var plant := new Plant(id, Trim(name), Trim(species), plantType, plantationDate,
                             SurfaceArea(surfaceAreaRequired), HumidityLevel(idealHumidityLevel));
      return ResultOf<Plant>.Success(plant);
    }
  }
}
