/** The one entity of the matchmaking service: a stored user profile, and
    the error outcomes the request handlers report. */
module Profiles {

  /** A stored user profile (models.py:5-22, schemas.py:4-10). The
      `interests` list is stored serialized by the database layer and
      read back as a list that defaults to empty; here it is simply the
      list. */
  datatype Profile = Profile(
    id: int,
    name: string,
    age: int,
    gender: string,
    email: string,
    city: string,
    interests: seq<string>)

  /** The failures the handlers raise:
      - `NotFound`: no row has the requested id (HTTP 404);
      - `EmailTaken`: create was given an email that is already stored (HTTP 400);
      - `ConstraintViolation`: the database's unique constraint on `email`
        rejected the commit of an update (an unhandled error in the source). */
  datatype Error = NotFound | EmailTaken | ConstraintViolation

  datatype Result<T> = Ok(value: T) | Err(error: Error)

  /** `Some(v)` for a field the request supplied, `None` for one it left unset. */
  datatype Option<T> = None | Some(value: T)
}
