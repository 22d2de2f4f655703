/** Values shared by every protocol module: nullable columns, transaction outcomes and volumes. */
module Prelude {

  /** A nullable column. */
  datatype Option<+T> = None | Some(value: T) {
    function GetOr(default: T): T {
      if Some? then value else default
    }
  }

  /** The error classes a repository transaction distinguishes. */
  datatype Error =
    | Contract       // malformed request or impossible row
    | NothingDue     // nothing to take right now
    | ClaimLost      // the caller no longer owns the row
    | NotFound
    | ConfigChanged  // the site fence no longer matches
    | NotReady       // no authoritative rebuild yet
    | Disabled       // the owning customer is disabled
    | Mismatch       // the remote identity is not the bound one

  /** A transaction either commits a value or rolls back with an error. */
  datatype Outcome<+T> = Ok(value: T) | Fail(error: Error) {
    predicate IsFailure() { Fail? }

    function PropagateFailure<U>(): Outcome<U>
      requires Fail?
    {
      Fail(error)
    }

    function Extract(): T
      requires Ok?
    {
      value
    }
  }

  function Max(a: int, b: int): int { if a < b then b else a }

  function Min(a: int, b: int): int { if a < b then a else b }

  /** A monotonic `updated_at`: it strictly grows even when the clock does not. */
  function Advance(previous: int, at: int): (t: int)
    ensures t > previous && t >= at
  {
    if previous >= at then previous + 1 else at
  }

  /** A boundary that only ever moves earlier. */
  function Earliest(existing: Option<int>, at: int): (t: int)
    ensures t <= at && (existing.Some? ==> t <= existing.value) && (t == at || existing == Some(t))
  {
    if existing.Some? && existing.value < at then existing.value else at
  }

  function FloorHour(t: int): int { t - t % 3600 }

  /** The most rows one maintenance batch may ask for. */
  const MAX_BATCH := 5000

  /** Fetched and written row counters, which always travel together. */
  datatype Volume = Volume(fetched: int, written: int) {
    function Plus(other: Volume): Volume {
      Volume(fetched + other.fetched, written + other.written)
    }

    predicate AtMost(other: Volume) {
      fetched <= other.fetched && written <= other.written
    }

    predicate Natural() { 0 <= fetched && 0 <= written }
  }

  const Nothing := Volume(0, 0)

  /** A member of a non-empty set of row ids. */
  method Pick(s: set<int>) returns (id: int)
    requires s != {}
    ensures id in s
  {
    assert (forall x: int :: x !in s) ==> s == {};
    id :| id in s;
  }

  /** `ORDER BY id ASC`: the next id to visit. */
  method LeastId(ids: set<int>) returns (least: int)
    requires ids != {}
    ensures least in ids && forall id :: id in ids ==> least <= id
  {
    least := Pick(ids);
    var rest := ids - {least};
    while rest != {}
      invariant rest <= ids && least in ids && forall id :: id in ids && id !in rest ==> least <= id
      decreases rest
    {
      var id := Pick(rest);
      rest := rest - {id};
      if id < least { least := id; }
    }
  }
}
