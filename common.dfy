/** Values shared by every module of the model: optional values, the results
    of operations that can throw, and the errors the services throw. */
module Common {

  /** A value that may be absent (`null`/`undefined` in the source). */
  datatype Option<+T> = None | Some(value: T) {
    function GetOr(default: T): T {
      match this
      case Some(v) => v
      case None => default
    }
  }

  /** Every exception the modelled code throws, one constructor per distinct
      condition. The comment gives the exception class of the source. */
  datatype Error =
    // time.helper.ts (BadRequestException)
    | InvalidTime              // null or empty time string
    | BadTimeFormat            // not HH:mm
    | HoursOutOfRange          // hours outside 0..23
    | MinutesOutOfRange        // minutes outside 0..59
    | MissingTimes             // validateTimeRange: a time is empty
    | StartNotBeforeEnd        // validateTimeRange: start >= end
    | InvalidDayOfWeek         // not an integer in 0..6
    // sumTotal.helper.ts (InternalServerErrorException)
    | NotANumber
    // app.service.ts (HttpException 400)
    | MissingVersion
    // appointment.service.ts (BadRequestException unless noted)
    | CompanyNotFound
    | ClientNotFound
    | AppointmentNotFound
    | BlockNotFound
    | NotABlock
    | Unauthorized             // UnauthorizedException: company mismatch
    | NoValidService
    | SomeServicesInvalid
    | DiscountTooLarge
    | NegativeDiscount
    | InvalidBlockRange
    | ScheduleConflict
    | NotPending
    | RecordNotFound           // Prisma P2025 on update/delete of a missing row
    // clients.service.ts (BadRequestException)
    | PhoneTaken
    | ClientHasAppointments
    | ClientNotInCompany
    // service.service.ts
    | ServiceNameTaken         // BadRequestException
    | PriceTooLow              // BadRequestException
    | ServiceNotFound          // NotFoundException
    | ForeignService           // BadRequestException: another company's service
    // company.service.ts
    | CompanyEmailTaken        // UnauthorizedException
    | LinkGenerationFailed     // BadRequestException
    | UniqueViolation          // Prisma P2002: a unique constraint would break
    // user.service.ts
    | UserEmailTaken           // BadRequestException

  /** The outcome of an operation that returns a `T` or throws. */
  datatype Result<+T> = Ok(value: T) | Fail(error: Error) {
    predicate IsFailure() {
      Fail?
    }

    function PropagateFailure<U>(): Result<U>
      requires Fail?
    {
      Fail(error)
    }

    function Extract(): T
      requires Ok?
    {
      value
    }
  }
}
