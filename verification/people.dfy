/**
 The Person record, as the backend entity (`Models/Equipment.cs`) and the
 frontend type (`types/Equipment.ts`) both declare it, plus the string
 constants and the two "default when missing" operators the code uses.
 */
module People {
  import opened Nullable

  /**
   The `MetSince` instant. It is never computed with, only stored, so it is
   kept opaque: a reading of the server clock, or such a reading moved back by
   whole years or months (the seed rows use `UtcNow.AddYears(-n)` and
   `UtcNow.AddMonths(-n)`).
   */
  datatype Timestamp =
    | ClockReading(clock: int)
    | YearsBefore(clock: int, years: nat)
    | MonthsBefore(clock: int, months: nat)

  /**
   One contact. `kind` is the source's `Type` property (a Dafny keyword).
   Type and status are free strings on the backend; only the frontend
   narrows them to the constants below.
   */
  datatype Person = Person(
    id: int,
    name: string,
    kind: string,
    status: string,
    notes: string,
    location: Option<string>,
    metSince: Timestamp,
    connections: Option<string>)

  const BestFriend: string := "best-friend"
  const Friend: string := "friend"
  const Acquaintance: string := "acquaintance"

  const Colleague: string := "colleague"
  const Groupmate: string := "groupmate"
  const Family: string := "family"
  const Classmate: string := "classmate"

  /** The serialized empty connection list every default falls back to. */
  const NoConnections: string := "[]"

  /** C#'s `value ?? fallback`: only a missing value is replaced. */
  function Coalesce(value: Option<string>, fallback: string): string
  {
    match value
    case Some(v) => v
    case None => fallback
  }

  /**
   JavaScript truthiness of an optional string: `undefined`, `null` and the
   empty string are all falsy.
   */
  predicate Truthy(value: Option<string>)
  {
    value.Some? && value.value != ""
  }

  /** JavaScript's `value || fallback` on an optional string. */
  function OrIfFalsy(value: Option<string>, fallback: string): string
  {
    if Truthy(value) then value.value else fallback
  }
}
