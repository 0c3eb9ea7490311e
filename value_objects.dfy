/** The value objects of the garden domain: identifier wrappers and the two
    guarded quantities. All of them are immutable record structs. */
module ValueObjects {
  import opened Common

  /** A `Guid`: only equality is ever used on it. Fresh values
      (`Guid.NewGuid()`) are passed in by the caller. */
  type Guid = nat

  /** `GardenId(Guid Value)`; `GardenId.New()` draws a fresh `Guid`, which the
      model takes as a parameter of `Garden.Create`. */
  datatype GardenId = GardenId(value: Guid) {
    static function From(value: Guid): (id: GardenId)
      ensures id.value == value
    {
      GardenId(value)
    }
  }

  /** `UserId(Guid Value)`. */
  datatype UserId = UserId(value: Guid) {
    static function From(value: Guid): (id: UserId)
      ensures id.value == value
    {
      UserId(value)
    }
  }

  /** `SurfaceArea(decimal Value)`; `decimal` is modelled as `real`. The
      positional constructor does not check anything; only `From` does. */
  datatype SurfaceArea = SurfaceArea(value: real) {
    /** `SurfaceArea.From`: throws `ArgumentOutOfRangeException` (here: `None`)
        unless the value is positive. */
    static function From(value: real): (area: Option<SurfaceArea>)
      ensures area.Some? <==> value > 0.0
      ensures area.Some? ==> area.value.value == value
    {
      if value <= 0.0 then None else Some(SurfaceArea(value))
    }
  }

  /** The inclusive range of a humidity level, shared by every check of it. */
  predicate InHumidityRange(value: int) {
    0 <= value <= 100
  }

  /** `HumidityLevel(int Value)`. Like `SurfaceArea`, the positional
      constructor is unchecked. */
  datatype HumidityLevel = HumidityLevel(value: int) {
    /** `HumidityLevel.From`: throws (here: `None`) when the value is below 0
        or above 100. */
    static function From(value: int): (level: Option<HumidityLevel>)
      ensures level.Some? <==> 0 <= value <= 100
      ensures level.Some? ==> level.value.value == value
    {
      if value < 0 || value > 100 then None else Some(HumidityLevel(value))
    }
  }
}
