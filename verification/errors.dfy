/** The failures the booking bot raises while choosing what to book, and the
    result type that carries either a value or one of them. */
module Errors {

  /** One variant per exception class the core raises. The first three are
      defined in src/exceptions.py; InvalidBookingGoals is imported by
      src/booking_goals.py but not defined there, and is assumed to exist.
      Only the kind is modelled; the human-readable message is not. */
  datatype Error =
    | BoxClosed               // the portal lists no class at all for the day
    | NoBookingGoal           // classes exist, but none has the wanted time and name
    | NoClassOnTargetDayTime  // the goals say nothing (or too little) for the weekday
    | InvalidBookingGoals     // the goals document is malformed or names no weekday

  /** Either a value or the error the source would raise instead of returning. */
  datatype Result<+T> = Ok(value: T) | Err(error: Error)
}
