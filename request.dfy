/**
 * `parseLimit`: the `limit` query parameter of the list endpoints, defaulted and
 * clamped. The string-to-number conversion is a parameter; its result is a finite
 * integer or not finite (`NaN`, `Infinity`).
 */
module Request {
  import opened Wrappers

  datatype JsNumber = Finite(value: int) | NonFinite

  const DEFAULT_LIMIT: int := 200
  const MIN_LIMIT: int := 1
  const MAX_LIMIT: int := 500

  /** `Math.min(Math.max(n, lo), hi)`. */
  function Clamp(n: int, lo: int, hi: int): (r: int)
    ensures r <= hi
    ensures lo <= hi ==> lo <= r
    ensures lo <= n <= hi ==> r == n
    ensures n <= lo <= hi ==> r == lo
    ensures hi <= n ==> r == hi
  {
    var atLeast := if n > lo then n else lo;
    if atLeast < hi then atLeast else hi
  }

  /** `parseLimit(raw, def, min, max)`: a missing or empty string, or one that is not a
      finite number, gives `def`; any other gives the clamped number. */
  function ParseLimit(raw: Option<string>, toNumber: string -> JsNumber, def: int, lo: int, hi: int): (r: int)
    ensures (raw.None? || raw.value == []) ==> r == def
    ensures raw.Some? && raw.value != [] && toNumber(raw.value).NonFinite? ==> r == def
    ensures raw.Some? && raw.value != [] && toNumber(raw.value).Finite? ==>
              r == Clamp(toNumber(raw.value).value, lo, hi)
    ensures r == def || (lo <= hi ==> lo <= r <= hi)
  {
    if raw.None? || raw.value == [] then def
    else
      match toNumber(raw.value)
      case NonFinite => def
      case Finite(n) => Clamp(n, lo, hi)
  }

  /** With the default arguments the limit is always between 1 and 500, and it is 200
      unless a finite number was given. */
  lemma DefaultLimitInRange(raw: Option<string>, toNumber: string -> JsNumber)
    ensures var r := ParseLimit(raw, toNumber, DEFAULT_LIMIT, MIN_LIMIT, MAX_LIMIT);
      MIN_LIMIT <= r <= MAX_LIMIT
      && (raw.None? || raw.value == [] || toNumber(raw.value).NonFinite? ==> r == DEFAULT_LIMIT)
  {
  }

  lemma ClampIdempotent(n: int, lo: int, hi: int)
    ensures Clamp(Clamp(n, lo, hi), lo, hi) == Clamp(n, lo, hi)
  {
  }

  lemma ClampMonotone(m: int, n: int, lo: int, hi: int)
    requires m <= n
    ensures Clamp(m, lo, hi) <= Clamp(n, lo, hi)
  {
  }
}
