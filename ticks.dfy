/**
 Logical time of the host store. A tick is a `u32` that wraps around: it is
 modelled as an integer in [0, 2^32), with `u32::wrapping_sub` written out as
 subtraction modulo 2^32; `<` and `>=` on ticks are the unsigned comparisons
 of `u32`.
 */
module Ticks {

  const TICK_MODULUS: int := 0x1_0000_0000
  const MAX_TICK: int := TICK_MODULUS - 1

  type Tick = x: int | 0 <= x < TICK_MODULUS

  /** `a.wrapping_sub(b)` on `u32`. */
  function WrappingSub(a: Tick, b: Tick): (d: Tick)
    ensures b <= a ==> d == a - b
    ensures a < b ==> d == a - b + TICK_MODULUS
  {
    (a - b) % TICK_MODULUS
  }

  /** The change test a refresh asks of the host, in the argument order of
      `Tick::new(since).is_older_than(last_changed, now)`: does a component whose
      last change is stamped `lastChanged` count as changed after `since`, when
      the reading happens at `now`? The host's own test is not part of this
      model; the refresh is proved for every test of this type. */
  type ChangeTest = (Tick, Tick, Tick) -> bool

  /** The comparison base of a refresh, `watermark.wrapping_sub(1)`: one tick
      before the watermark, wrapping to `u32::MAX` when the watermark is 0. */
  function Since(watermark: Tick): (since: Tick)
    ensures watermark == 0 ==> since == MAX_TICK
    ensures watermark != 0 ==> since + 1 == watermark
  {
    WrappingSub(watermark, 1)
  }

  /** An ASSUMED body for the host's change test: ages are measured backwards
      from `now` with wrapping subtraction, and `lastChanged` counts as changed
      when it is strictly younger than `since`. Only the scenarios use it. */
  function WrappingAgeIsOlderThan(since: Tick, lastChanged: Tick, now: Tick): (newer: bool)
    ensures newer ==> lastChanged != since
    ensures lastChanged == now && since != now ==> newer
  {
    WrappingSub(now, since) > WrappingSub(now, lastChanged)
  }

  /** Without wrap-around (both ticks at or before `now`) the assumed test is
      the plain order: the change is seen exactly when it is later than `since`. */
  lemma WrappingAgeIsOrder(since: Tick, lastChanged: Tick, now: Tick)
    requires since <= now && lastChanged <= now
    ensures WrappingAgeIsOlderThan(since, lastChanged, now) <==> since < lastChanged
  {
  }

  /** With the assumed test, a change stamped in the very step that set the
      watermark is seen by the next refresh because the base is `watermark - 1`,
      and it would be missed with the watermark itself as the base. */
  lemma SameStepChangeSeen(watermark: Tick, now: Tick)
    requires 0 < watermark < now
    ensures WrappingAgeIsOlderThan(Since(watermark), watermark, now)
    ensures !WrappingAgeIsOlderThan(watermark, watermark, now)
  {
  }

  /** With the assumed test, the first refresh (watermark 0, base `u32::MAX`)
      sees every component stamped at or before `now`. */
  lemma FirstRefreshSeesAll(lastChanged: Tick, now: Tick)
    requires lastChanged <= now < MAX_TICK
    ensures WrappingAgeIsOlderThan(Since(0), lastChanged, now)
  {
  }
}
