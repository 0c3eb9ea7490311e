/** Shared building blocks of the management domain: the optional value used
    for C# nullable references, the structured error of an operation,
    the success/failure results that every aggregate operation returns, and the
    stable error codes. */
module Common {

  /** A nullable reference or nullable value (`T?` in C#). */
  datatype Option<+T> = None | Some(value: T)

  /** Timestamps (`DateTimeOffset`) are modelled as ticks; only equality and
      storage are ever used on them. */
  type Instant = int

  /** Field name -> messages (`IReadOnlyDictionary<string, string[]>`). */
  type ValidationErrors = map<string, seq<string>>

  /** `Error(Code, Message, ValidationErrors = null)`. */
  datatype Error = Error(code: string, message: string, validationErrors: Option<ValidationErrors>)

  /** Stable error codes. `GardenValidationFailed` is the text the domain tests
      compare against; the text of `PlantValidationFailed` is not defined in
      the modelled sources (`ErrorCodes` is not modelled) and is assumed to
      follow the same pattern. The model relies only on the two codes being
      different. */
  const GardenValidationFailed: string := "Garden.ValidationFailed"
  const PlantValidationFailed: string := "Plant.ValidationFailed"

  /** The non-generic `Result`: a success flag and an optional error. The only
      way the source builds one is through `Success` and `Failure`. */
  datatype Result = Result(isSuccess: bool, error: Option<Error>) {

    /** `IsFailure => !IsSuccess`. */
    predicate IsFailure() {
      !isSuccess
    }

    /** A result is well formed when it carries an error exactly when it is a
        failure; both factories produce only well-formed results. */
    predicate WellFormed() {
      isSuccess <==> error.None?
    }

    static function Success(): (r: Result)
      ensures r.isSuccess && !r.IsFailure() && r.error == None
      ensures r.WellFormed()
    {
      Result(true, None)
    }

    static function Failure(code: string, message: string, validationErrors: Option<ValidationErrors>): (r: Result)
      ensures r.IsFailure() && !r.isSuccess
      ensures r.error == Some(Error(code, message, validationErrors))
      ensures r.WellFormed()
    {
      Result(false, Some(Error(code, message, validationErrors)))
    }
  }

  /** The generic `Result<T>`: a `Result` that also carries an optional value
      (`default` on failure, which is `null` for the reference types it is
      used with). */
  datatype ResultOf<T> = ResultOf(isSuccess: bool, value: Option<T>, error: Option<Error>) {

    predicate IsFailure() {
      !isSuccess
    }

    /** The view through the base class `Result`. */
    function AsResult(): (r: Result)
      ensures r.isSuccess == isSuccess && r.error == error
      ensures r.IsFailure() == IsFailure()
    {
      Result(isSuccess, error)
    }

    static function Success(value: T): (r: ResultOf<T>)
      ensures r.isSuccess && !r.IsFailure()
      ensures r.value == Some(value) && r.error == None
      ensures r.AsResult() == Result.Success()
    {
      ResultOf(true, Some(value), None)
    }

    static function Failure(code: string, message: string, validationErrors: Option<ValidationErrors>): (r: ResultOf<T>)
      ensures r.IsFailure() && r.value == None
      ensures r.error == Some(Error(code, message, validationErrors))
      ensures r.AsResult() == Result.Failure(code, message, validationErrors)
    {
      ResultOf(false, None, Some(Error(code, message, validationErrors)))
    }
  }
}
