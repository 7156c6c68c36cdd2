/**
 * Small shared vocabulary: an Option type (JavaScript's undefined/null),
 * document identifiers (MongoDB ObjectIds), points in time, and the
 * status/message pair every HTTP handler answers with.
 */
module Common {

  /** A value that may be absent (undefined or null in the JavaScript source). */
  datatype Option<+T> = None | Some(value: T) {
    function GetOr(default: T): T {
      match this
      case Some(v) => v
      case None => default
    }
  }

  /** A required string path of a schema: present and not empty. */
  predicate PresentText(v: Option<string>) {
    v.Some? && v.value != ""
  }

  /** Document identifiers. ObjectIds are opaque; only their equality matters. */
  type UserId = nat
  type ArtworkId = nat

  /**
   * A point in time, split into the calendar year and month (1..12) that
   * MongoDB's `$year` / `$month` operators extract, plus the time elapsed
   * inside that month (in milliseconds).
   */
  datatype Instant = Instant(year: nat, month: nat, withinMonth: nat) {
    ghost predicate Valid() { 1 <= month <= 12 }
  }

  /** Chronological order on instants: lexicographic on (year, month, offset). */
  predicate InstantLe(a: Instant, b: Instant) {
    a.year < b.year
    || (a.year == b.year && a.month < b.month)
    || (a.year == b.year && a.month == b.month && a.withinMonth <= b.withinMonth)
  }

  /** A (year, month) calendar bucket. */
  datatype YearMonth = YearMonth(year: nat, month: nat)

  /** Lexicographic order on calendar months. */
  predicate YearMonthLe(a: YearMonth, b: YearMonth) {
    a.year < b.year || (a.year == b.year && a.month <= b.month)
  }

  predicate YearMonthLt(a: YearMonth, b: YearMonth) {
    a.year < b.year || (a.year == b.year && a.month < b.month)
  }

  /** An HTTP status code with the JSON `message` an error response carries. */
  datatype Failure = Failure(status: nat, message: string)

  /** The answer of a handler: a success status with a payload, or a failure. */
  datatype Reply<+T> = Ok(status: nat, value: T) | Fail(failure: Failure)
}
