/**
 * Result types shared by every part of the world model: an optional value,
 * a value-or-error, an ok-or-error, and the error conditions that the
 * simulation reports, one per place where the Go code builds an error.
 */
module Outcomes {

  datatype Option<+T> = None | Some(value: T)

  /** The errors the simulation's operations return. */
  datatype Error =
    | OutsideWorld                // a coordinate leaves the usable region
    | LocationTaken(occupant: nat) // the target cell holds another live peep (its id)
    | VerticalMove                // a peep was asked to change its Z coordinate
    | PopulationCap               // MaxPeeps live peeps already exist
    | TooManyPeeps                // NewPeepMax live peeps already exist
    | NoEmptyLocation             // every neighbouring cell is occupied
    | MovesDisabled               // movement is switched off globally
    | DeadPeep                    // a dead peep was asked to move
    | MoveFailed(cause: Error)    // a peep's move failed for the wrapped reason

  /** A Go `error` result: nil or an error value. */
  datatype Outcome = Ok | Fail(error: Error)

  /** A Go `(T, error)` result pair. */
  datatype Result<+T> = Success(value: T) | Failure(error: Error)
}
