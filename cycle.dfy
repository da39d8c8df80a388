/**
 * The message-expiry cycle of a room.  Time is measured in milliseconds
 * since the epoch; a room's messages live in windows of MessageExpiry
 * milliseconds counted from the room's creation.
 */
module Cycle {

  /** `MESSAGE_EXPIRY`: ten minutes in milliseconds. */
  const MessageExpiry: int := 600000

  /**
   * `floor((now - createdAt) / MESSAGE_EXPIRY) * MESSAGE_EXPIRY + createdAt`.
   * Dafny's `/` by a positive divisor rounds down, as `Math.floor` does, so
   * this is exact also for `now < createdAt`, which the source does not clamp.
   * The result is the one window boundary aligned with `createdAt` whose
   * window contains `now`.
   */
  function CycleStart(createdAt: int, now: int): (start: int)
    ensures start <= now < start + MessageExpiry
    ensures (start - createdAt) % MessageExpiry == 0
  {
    (now - createdAt) / MessageExpiry * MessageExpiry + createdAt
  }

  /** A boundary aligned with the creation time whose window holds `now` is the cycle start. */
  lemma CycleStartUnique(createdAt: int, now: int, start: int)
    requires (start - createdAt) % MessageExpiry == 0
    requires start <= now < start + MessageExpiry
    ensures start == CycleStart(createdAt, now)
  {
    var other := CycleStart(createdAt, now);
    if start < other {
      AlignedApart(createdAt, start, other);
    } else if other < start {
      AlignedApart(createdAt, other, start);
    }
  }

  /** Two distinct aligned boundaries are at least one window apart. */
  lemma AlignedApart(createdAt: int, a: int, b: int)
    requires (a - createdAt) % MessageExpiry == 0 && (b - createdAt) % MessageExpiry == 0
    requires a < b
    ensures a + MessageExpiry <= b
  {
    var ka := (a - createdAt) / MessageExpiry;
    var kb := (b - createdAt) / MessageExpiry;
    assert a == createdAt + ka * MessageExpiry;
    assert b == createdAt + kb * MessageExpiry;
    assert ka < kb;
  }

  /** The boundary never moves backwards as the clock advances. */
  lemma CycleStartMonotonic(createdAt: int, now1: int, now2: int)
    requires now1 <= now2
    ensures CycleStart(createdAt, now1) <= CycleStart(createdAt, now2)
  {
    var a, b := CycleStart(createdAt, now1), CycleStart(createdAt, now2);
    if b < a {
      AlignedApart(createdAt, b, a);
    }
  }

  /** Recomputing the boundary at the boundary itself gives the same boundary. */
  lemma CycleStartIdempotent(createdAt: int, now: int)
    ensures CycleStart(createdAt, CycleStart(createdAt, now)) == CycleStart(createdAt, now)
  {
    var start := CycleStart(createdAt, now);
    CycleStartUnique(createdAt, start, start);
  }

  /**
   * Without a clamp, a clock reading before the creation time yields a
   * negative cycle index: the boundary lies a whole window or more before
   * the creation time.
   */
  lemma CycleStartBeforeCreation(createdAt: int, now: int)
    requires now < createdAt
    ensures CycleStart(createdAt, now) <= createdAt - MessageExpiry
  {
    var start := CycleStart(createdAt, now);
    AlignedApart(createdAt, start, createdAt);
  }

  /** From the creation time on, the boundary is the creation time plus whole windows. */
  lemma CycleStartAfterCreation(createdAt: int, now: int)
    requires createdAt <= now
    ensures createdAt <= CycleStart(createdAt, now)
  {
    CycleStartMonotonic(createdAt, createdAt, now);
    CycleStartUnique(createdAt, createdAt, createdAt);
  }
}
