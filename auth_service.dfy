/**
 * The sign-in lock-out kept in the browser's local storage: failed
 * attempts are remembered for five minutes, and the third one inside that
 * window blocks sign-in for five minutes. The store holds two entries,
 * `authFailuresKey` (the failure times) and `authBlockedUntil` (the end of
 * the block); the clock's reading is a parameter.
 */
module AuthService {
  import opened Wrappers

  const BlockDurationMs := 5 * 60 * 1000
  const MaxAttempts := 3

  /** The failure times still inside the window ending at `now` (`now - t < BlockDurationMs`), in order. */
  function Recent(times: seq<int>, now: int): (r: seq<int>)
    ensures |r| <= |times|
  {
    if times == [] then []
    else
      var init, last := times[..|times| - 1], times[|times| - 1];
      Recent(init, now) + (if now - last < BlockDurationMs then [last] else [])
  }

  /** A time is kept exactly when it was stored and is less than the block duration old. */
  lemma {:induction false} RecentMembers(times: seq<int>, now: int)
    ensures forall t :: t in Recent(times, now) <==> t in times && now - t < BlockDurationMs
  {
    if times != [] {
      var init, last := times[..|times| - 1], times[|times| - 1];
      assert times == init + [last];
      RecentMembers(init, now);
    }
  }

  /** Pruning keeps the stored order: pruning a concatenation prunes each side. */
  lemma {:induction false} RecentAppend(a: seq<int>, b: seq<int>, now: int)
    ensures Recent(a + b, now) == Recent(a, now) + Recent(b, now)
  {
    if b != [] {
      var init, last := b[..|b| - 1], b[|b| - 1];
      assert a + b == (a + init) + [last];
      assert (a + b)[..|a + b| - 1] == a + init;
      RecentAppend(a, init, now);
    } else {
      assert a + b == a;
    }
  }

  /** A single time inside the window is kept. */
  lemma RecentOne(t: int, now: int)
    requires now - t < BlockDurationMs
    ensures Recent([t], now) == [t]
  {
    assert [t][..0] == [];
  }

  /** The failure list stored by a failure at `now`: the pruned list, then `now`. */
  function FailuresAfter(stored: seq<int>, now: int): (r: seq<int>)
    ensures |r| >= 1 && r[|r| - 1] == now
    ensures r[..|r| - 1] == Recent(stored, now)
  {
    Recent(stored, now) + [now]
  }

  /**
   * Three failures inside one window, the clock not going backwards,
   * always reach the limit, whatever was stored before.
   */
  lemma ThreeStrikes(stored: seq<int>, t1: int, t2: int, t3: int)
    requires t1 <= t2 <= t3 && t3 - t1 < BlockDurationMs
    ensures |FailuresAfter(FailuresAfter(FailuresAfter(stored, t1), t2), t3)| >= MaxAttempts
  {
    var x := Recent(stored, t1);
    var f1 := x + [t1];
    var f2 := Recent(f1, t2) + [t2];
    RecentAppend(x, [t1], t2);
    RecentOne(t1, t2);
    assert f2 == Recent(x, t2) + [t1] + [t2];
    RecentAppend(Recent(x, t2) + [t1], [t2], t3);
    RecentAppend(Recent(x, t2), [t1], t3);
    RecentOne(t1, t3);
    RecentOne(t2, t3);
    assert Recent(f2, t3) == Recent(Recent(x, t2), t3) + [t1] + [t2];
  }

  /** The local storage entries the lock-out uses; `None` is an absent entry. */
  class AuthStore {
    var failures: Option<seq<int>>
    var blockedUntil: Option<int>

    /** An empty store. */
    constructor()
      ensures failures.None? && blockedUntil.None?
    {
      failures := None;
      blockedUntil := None;
    }

    /** The stored failure times, an absent entry read as the empty list. */
    function StoredFailures(): seq<int>
      reads this
    {
      failures.GetOr([])
    }

    /** `now < parseInt(blockedUntil)`, false without an entry. */
    predicate Blocked(now: int)
      reads this
    {
      blockedUntil.Some? && now < blockedUntil.value
    }

    /**
     * `authFailure` after the report to the server: store the pruned list
     * with `now` appended, and block until five minutes from now once the
     * list reaches three entries.
     */
    method AuthFailure(now: int)
      modifies this
      ensures failures == Some(FailuresAfter(old(StoredFailures()), now))
      ensures |failures.value| >= MaxAttempts ==> blockedUntil == Some(now + BlockDurationMs)
      ensures |failures.value| < MaxAttempts ==> blockedUntil == old(blockedUntil)
    {
      var stored := StoredFailures();
      var kept := Recent(stored, now);
      var updated := kept + [now];
      failures := Some(updated);
      if |updated| >= MaxAttempts {
        blockedUntil := Some(now + BlockDurationMs);
      }
    }

    /** `isBlocked`: whether the block is still running; a running block clears the failure list. */
    method IsBlocked(now: int) returns (b: bool)
      modifies this
      ensures b == old(Blocked(now))
      ensures blockedUntil == old(blockedUntil)
      ensures b ==> failures.None?
      ensures !b ==> failures == old(failures)
    {
      if blockedUntil.None? {
        return false;
      }
      b := now < blockedUntil.value;
      if b {
        failures := None;
      }
    }

    /** `remainingBlockTime`: the milliseconds left, never negative, zero without an entry. */
    function RemainingBlockTime(now: int): (r: int)
      reads this
      ensures r >= 0
      ensures r > 0 <==> Blocked(now)
      ensures Blocked(now) ==> now + r == blockedUntil.value
    {
      if blockedUntil.None? then 0
      else if blockedUntil.value - now > 0 then blockedUntil.value - now
      else 0
    }
  }

  /**
   * Three failures inside one window block sign-in from the third one
   * until five minutes after it.
   */
  method ThreeFailuresBlock(store: AuthStore, t1: int, t2: int, t3: int)
    requires t1 <= t2 <= t3 && t3 - t1 < BlockDurationMs
    modifies store
    ensures store.blockedUntil == Some(t3 + BlockDurationMs)
    ensures forall now :: t3 <= now < t3 + BlockDurationMs ==> store.Blocked(now)
  {
    ThreeStrikes(store.StoredFailures(), t1, t2, t3);
    store.AuthFailure(t1);
    store.AuthFailure(t2);
    store.AuthFailure(t3);
  }
}
