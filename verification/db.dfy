/** The cached database connection (lib/db.ts).

    The cache `{ conn, promise }` lives on the global object so that it
    survives module re-evaluation. The model is sequential: `promise` holds
    the outcome the shared connection attempt settles with, and the outcome of
    `mongoose.connect` is an input to the call that starts an attempt. A call
    that finds an attempt already in `promise` takes that attempt's outcome,
    not a new one. */
module Db {
  import opened Outcomes
  import opened Text

  /** The resolved mongoose instance. */
  datatype Handle = Handle(id: nat)

  /** How `mongoose.connect` settles: with a handle, or rejected with an error
      message. */
  datatype ConnectOutcome = Connected(handle: Handle) | Refused(message: string)

  /** The three errors `connectToDatabase` rethrows. */
  datatype DbError = AuthenticationFailed | NetworkFailed | ConnectionFailed {
    function Message(): string {
      match this
      case AuthenticationFailed => "Database authentication failed. Check your credentials."
      case NetworkFailed => "Database network error. Check your connection."
      case ConnectionFailed => "Database connection failed"
    }
  }

  /** The `.catch` handler's classification of a driver error message:
      "authentication" wins over "network" and "timeout", and anything else is
      generic. */
  function Classify(message: string): (e: DbError)
    ensures e == AuthenticationFailed <==> Contains(message, "authentication")
    ensures e == NetworkFailed <==>
              !Contains(message, "authentication") && (Contains(message, "network") || Contains(message, "timeout"))
  {
    if Contains(message, "authentication") then AuthenticationFailed
    else if Contains(message, "network") || Contains(message, "timeout") then NetworkFailed
    else ConnectionFailed
  }

  /** A driver message mentioning both an authentication problem and a timeout
      is reported as an authentication failure. */
  lemma AuthenticationTakesPrecedence(before: string, middle: string, after: string)
    ensures Classify(before + "authentication" + middle + "timeout" + after) == AuthenticationFailed
  {
    ContainsInfix(before, "authentication", middle + "timeout" + after);
    assert before + "authentication" + middle + "timeout" + after
        == before + "authentication" + (middle + "timeout" + after);
  }

  /** `cached`: the connection once there is one, and the shared attempt. */
  class ConnectionCache {
    var conn: Option<Handle>
    var promise: Option<ConnectOutcome>
    /** How many times `mongoose.connect` has been called. */
    var attempts: nat

    /** A cached connection is what the cached attempt resolved to. */
    ghost predicate Valid()
      reads this
    {
      conn.Some? ==> promise == Some(Connected(conn.value))
    }

    /** `{ conn: null, promise: null }`. */
    constructor ()
      ensures Valid() && conn.None? && promise.None? && attempts == 0
    {
      conn := None;
      promise := None;
      attempts := 0;
    }

    /** `connectToDatabase()`: return the cached connection; otherwise start an
        attempt if none is in `promise` and await it. On success the handle is
        cached; on failure `promise` is cleared so the next call retries, and
        an `Error` carrying the classified error's fixed message is thrown. */
    method Connect(outcome: ConnectOutcome) returns (r: Result<Handle, string>)
      requires Valid()
      modifies this
      ensures Valid()
      ensures old(conn).Some? ==>
                r == Ok(old(conn).value) && conn == old(conn) && promise == old(promise) && attempts == old(attempts)
      ensures old(conn).None? ==>
                && attempts == old(attempts) + (if old(promise).None? then 1 else 0)
                && var settled := old(promise).GetOr(outcome);
                match settled
                case Connected(h) => r == Ok(h) && conn == Some(h) && promise == Some(settled)
                case Refused(m) => r == Err(Classify(m).Message()) && conn.None? && promise.None?
    {
      if conn.Some? {
        return Ok(conn.value);
      }
      if promise.None? {
        promise := Some(outcome);
        attempts := attempts + 1;
      }
      match promise.value
      case Connected(h) =>
        conn := Some(h);
        r := Ok(h);
      case Refused(m) =>
        promise := None;
        r := Err(Classify(m).Message());
    }
  }

  /** Once a connection is cached, later calls return the same handle and
      start no attempt, whatever `mongoose.connect` would have done. */
  method ReuseAfterSuccess(h: Handle, later: ConnectOutcome)
    returns (first: Result<Handle, string>, second: Result<Handle, string>, attempts: nat)
    ensures first == Ok(h) && second == Ok(h) && attempts == 1
  {
    var cache := new ConnectionCache();
    first := cache.Connect(Connected(h));
    second := cache.Connect(later);
    attempts := cache.attempts;
  }

  /** A failed attempt leaves nothing cached, so the next call starts a new
      attempt and can succeed. */
  method RetryAfterFailure(message: string, h: Handle)
    returns (first: Result<Handle, string>, second: Result<Handle, string>, attempts: nat)
    ensures first == Err(Classify(message).Message()) && second == Ok(h) && attempts == 2
  {
    var cache := new ConnectionCache();
    first := cache.Connect(Refused(message));
    second := cache.Connect(Connected(h));
    attempts := cache.attempts;
  }

  /** The global object the cache is parked on between module evaluations. */
  class GlobalScope {
    var mongoose: ConnectionCache?

    /** Evaluating lib/db.ts: reuse `global.mongoose` if it is set, otherwise
        create the empty cache and park it there. */
    method LoadDbModule() returns (cached: ConnectionCache)
      modifies this
      ensures mongoose == cached
      ensures old(mongoose) != null ==> cached == old(mongoose)
      ensures old(mongoose) == null ==> fresh(cached) && cached.Valid() && cached.conn.None? && cached.promise.None?
    {
      if mongoose == null {
        mongoose := new ConnectionCache();
      }
      cached := mongoose;
    }
  }
}
