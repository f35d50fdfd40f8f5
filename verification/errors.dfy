/** The errors the controllers raise, and which `ApiError` factory (or which
    persistence/transport failure) each one corresponds to. How the error
    handler turns them into HTTP responses is not part of this model. */
module Errors {

  datatype ApiError =
    | TrainingNotFound        // ApiError.notFound('Training session not found')
    | AttendanceNotFound      // ApiError.notFound('Attendance record not found')
    | PastTraining            // ApiError.badRequest('Cannot register for past training sessions')
    | FullCapacity            // ApiError.badRequest('Training session is at full capacity')
    | AlreadyRegistered       // ApiError.badRequest('You are already registered ...')
    | DeclarationExists       // ApiError.badRequest('Declaration form has already been submitted')
    | InvalidDateRange        // ApiError.badRequest('End date must be after start date')
    | TrainingHasAttendances  // ApiError.badRequest('Cannot delete training with existing attendances ...')
    | MissingRequiredField    // a NOT NULL column written as null (Sequelize validation)
    | InvalidEnumValue        // a string outside an ENUM column's values
    | ForeignKeyViolation     // a row referencing a missing training or user
    | NegativeLimitOrOffset   // the database refuses a negative LIMIT or OFFSET
    | DeliveryFailed          // the mail transport rejected a message
    | Unauthorized            // ApiError.unauthorized(...)
    | Forbidden               // ApiError.forbidden(...)
}
