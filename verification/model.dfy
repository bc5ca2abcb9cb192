/**
  The records the scheduler works on (model/model.go) and the configuration
  fields it reads (config/config.go). Times are integer nanoseconds since the
  Unix epoch and durations are integer nanoseconds, as Go's time.Duration is.
 */
module Model {

  const MinInt64: int := -0x8000_0000_0000_0000
  const MaxInt64: int := 0x7FFF_FFFF_FFFF_FFFF

  predicate IsInt64(x: int) {
    MinInt64 <= x <= MaxInt64
  }

  /** Go's zero time.Time, January 1 of year 1 UTC, in nanoseconds since the Unix epoch. */
  const ZeroTime: int := -62_135_596_800 * 1_000_000_000

  /** One (exam date, address) combination to watch, with the cached result of its last probe. */
  datatype Task = Task(examDate: string, address: string, found: bool, ttl: int, updatedAt: int)

  /** The fields of a task that no operation may change. */
  predicate SameIdentity(t: Task, u: Task) {
    t.examDate == u.examDate && t.address == u.address && t.ttl == u.ttl
  }

  /** An outgoing ntfy message; an empty `filename` means there is no attachment. */
  datatype Notification = Notification(
    topic: string,
    title: string,
    tags: seq<string>,
    message: string,
    filename: string,
    priority: int)

  /** The configuration fields the scheduling core reads. */
  datatype Config = Config(
    examDates: string,
    addresses: string,
    examType: int,
    browsersCount: int,
    intervalBetweenChecks: int,
    ttlForFoundTask: int,
    ntfyTopic: string)
}
