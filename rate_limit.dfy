/**
 * A rate-limiter binding of the worker (`THROW_RATE_LIMITER`,
 * `ACTION_RATE_LIMITER`, `FALSE_POSITIVE_RATE_LIMITER`). Its quota and window
 * live in the platform, so each verdict is an unknown input; the binding keeps
 * a log of the keys it was asked about and what it answered.
 */
module RateLimit {

  datatype LimitCall = LimitCall(key: string, granted: bool)

  class RateLimiter {
    var log: seq<LimitCall>

    constructor()
      ensures log == []
    {
      log := [];
    }

    /** The verdict of the most recent call. */
    function LastGranted(): bool
      reads this
      requires log != []
    {
      log[|log| - 1].granted
    }

    /** `limiter.limit({ key })`: one more call for `key`, with the platform's verdict. */
    method Limit(key: string) returns (success: bool)
      modifies this
      ensures log == old(log) + [LimitCall(key, success)]
    {
      success := *;
      log := log + [LimitCall(key, success)];
    }
  }
}
