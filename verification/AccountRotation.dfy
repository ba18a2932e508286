/**
  Multi-account rotation: a round-robin pick over accounts that may be cooling down,
  and the per-account failure bookkeeping (back-off, eviction) that makes them so.
  Time and jitter are arguments; everything else is the executor's own state.
 */
module AccountRotation {
  import opened Wrappers

  const EVICT_AFTER_TERMINAL: nat := 3
  const COOLDOWN_BASE_MS: nat := 5000
  const COOLDOWN_MAX_MS: nat := 60000

  datatype CooldownKind = Transient | Terminal

  // ---------------------------------------------------------------- account health

  /** The mutable part of an account, as a value. */
  datatype Health = Health(cooldownUntil: real, consecutiveFails: nat, evictedAt: Option<int>) {
    predicate IsEvicted() {
      evictedAt.Some?
    }

    predicate IsReady(now: int) {
      cooldownUntil <= now as real
    }
  }

  /** What happens to an account. `stampedAt` is the second clock reading, taken only to date an eviction. */
  datatype Event =
    | Failure(kind: CooldownKind, at: int, jitter: real, stampedAt: int)
    | Success

  const FreshHealth := Health(0.0, 0, None)

  function Pow2(k: nat): nat {
    if k == 0 then 1 else 2 * Pow2(k - 1)
  }

  function Min(a: int, b: int): int {
    if a < b then a else b
  }

  /** Delay after the k-th consecutive failure. */
  function Backoff(k: nat): int
    requires 1 <= k
  {
    Min(COOLDOWN_BASE_MS * Pow2(k - 1), COOLDOWN_MAX_MS)
  }

  function AfterEvent(h: Health, e: Event): Health {
    match e
    case Success => h.(consecutiveFails := 0, evictedAt := None)
    case Failure(kind, at, jitter, stampedAt) =>
      var fails := h.consecutiveFails + 1;
      Health(
        at as real + Backoff(fails) as real + jitter,
        fails,
        if kind == Terminal && fails >= EVICT_AFTER_TERMINAL then Some(stampedAt) else h.evictedAt)
  }

  class RotatableAccount {
    const fingerprint: string
    var cooldownUntil: real
    var consecutiveFails: nat
    var evictedAt: Option<int>

    constructor (fingerprint: string)
      ensures this.fingerprint == fingerprint && Snapshot() == FreshHealth
    {
      this.fingerprint := fingerprint;
      cooldownUntil, consecutiveFails, evictedAt := 0.0, 0, None;
    }

    function Snapshot(): Health
      reads this
    {
      Health(cooldownUntil, consecutiveFails, evictedAt)
    }

    predicate IsEvicted()
      reads this
    {
      Snapshot().IsEvicted()
    }

    predicate IsReady(now: int)
      reads this
    {
      Snapshot().IsReady(now)
    }

    method MarkCooldown(kind: CooldownKind, now: int, jitter: real, evictionNow: int)
      modifies this
      ensures Snapshot() == AfterEvent(old(Snapshot()), Failure(kind, now, jitter, evictionNow))
    {
      consecutiveFails := consecutiveFails + 1;
      var backoff := Min(COOLDOWN_BASE_MS * Pow2(consecutiveFails - 1), COOLDOWN_MAX_MS);
      cooldownUntil := now as real + backoff as real + jitter;
      if kind == Terminal && consecutiveFails >= EVICT_AFTER_TERMINAL {
        evictedAt := Some(evictionNow);
      }
    }

    method MarkSuccess()
      modifies this
      ensures Snapshot() == AfterEvent(old(Snapshot()), Success)
    {
      consecutiveFails := 0;
      evictedAt := None;
    }
  }

  // ---------------------------------------------------------------- the pick

  /** The slot d places after slot p on a ring of n slots. */
  function At(n: nat, p: nat, d: nat): nat
    requires p < n && d <= n
  {
    if p + d < n then p + d else p + d - n
  }

  /** How many places after slot p slot j lies. */
  function Distance(n: nat, p: nat, j: nat): nat
    requires p < n && j < n
  {
    if p <= j then j - p else j + n - p
  }

  predicate SomeReady(ready: seq<bool>) {
    exists i :: 0 <= i < |ready| && ready[i]
  }

  /** A slot the pick may return: a ready one, or any slot at all when none is ready. */
  predicate Eligible(ready: seq<bool>, i: nat) {
    i < |ready| && (ready[i] || !SomeReady(ready))
  }

  /** Distance from p to the nearest eligible slot, searching from distance d on. */
  function Skip(p: nat, ready: seq<bool>, d: nat := 0): (r: nat)
    requires p < |ready| && d <= |ready|
    ensures r < |ready|
    decreases |ready| - d
  {
    if d == |ready| then 0
    else if ready[At(|ready|, p, d)] then d
    else Skip(p, ready, d + 1)
  }

  function Pick(p: nat, ready: seq<bool>): (i: nat)
    requires p < |ready|
    ensures i < |ready|
  {
    At(|ready|, p, Skip(p, ready))
  }

  function NextPointer(p: nat, ready: seq<bool>): (q: nat)
    requires p < |ready|
    ensures q < |ready|
  {
    At(|ready|, Pick(p, ready), 1)
  }

  lemma TimesAtLeast(x: nat, n: nat)
    requires 1 <= x
    ensures n <= x * n
  {
    assert x * n == (x - 1) * n + n;
  }

  lemma ModIs(a: nat, n: nat, q: nat, r: nat)
    requires 0 < n && r < n && a == q * n + r
    ensures a % n == r
  {
    var k := a / n;
    assert a == k * n + a % n;
    if k < q {
      assert (q - k) * n == a % n - r;
      TimesAtLeast(q - k, n);
    } else if q < k {
      assert (k - q) * n == r - a % n;
      TimesAtLeast(k - q, n);
    }
  }

  /** The source's `(pointer + i) % length` is a walk on the ring from the reduced pointer. */
  lemma RingStep(n: nat, p: nat, d: nat)
    requires 0 < n && d <= n
    ensures p % n < n && (p + d) % n == At(n, p % n, d)
  {
    var k, r := p / n, p % n;
    assert p == k * n + r;
    if r + d < n {
      ModIs(p + d, n, k, r + d);
    } else {
      assert p + d == (k + 1) * n + (r + d - n);
      ModIs(p + d, n, k + 1, r + d - n);
    }
  }

  lemma RingNext(n: nat, i: nat)
    requires i < n
    ensures (i + 1) % n == At(n, i, 1)
  {
    ModIs(i, n, 0, i);
    RingStep(n, i, 1);
  }

  /** Which accounts answer `isReady` in the current heap. */
  function Readiness(accounts: seq<RotatableAccount>, isReady: RotatableAccount ~> bool): (r: seq<bool>)
    requires forall a :: a in accounts ==> isReady.requires(a)
    reads set a, o | a in accounts && o in isReady.reads(a) :: o
    ensures |r| == |accounts| && forall i :: 0 <= i < |r| ==> r[i] == isReady(accounts[i])
  {
    if accounts == [] then [] else [isReady(accounts[0])] + Readiness(accounts[1..], isReady)
  }

  class RotationState {
    var nextAccountIdx: nat

    constructor ()
      ensures nextAccountIdx == 0
    {
      nextAccountIdx := 0;
    }

    method PickAccount(accounts: seq<RotatableAccount>, isReady: RotatableAccount ~> bool)
      returns (account: RotatableAccount)
      requires accounts != []
      requires forall a :: a in accounts ==> isReady.requires(a)
      modifies this
      ensures
        var n, ready := |accounts|, old(Readiness(accounts, isReady));
        var p := old(nextAccountIdx) % n;
        account == accounts[Pick(p, ready)] && nextAccountIdx == NextPointer(p, ready)
    {
      var n := |accounts|;
      ghost var ptr, ready := nextAccountIdx, Readiness(accounts, isReady);
      ghost var p := ptr % n;
      for i := 0 to n
        invariant unchanged(this)
        invariant forall j :: 0 <= j < n ==> isReady.requires(accounts[j]) && isReady(accounts[j]) == ready[j]
        invariant Skip(p, ready) == Skip(p, ready, i)
      {
        RingStep(n, ptr, i);
        var idx := (nextAccountIdx + i) % n;
        assert idx == At(n, p, i);
        var acct := accounts[idx];
        if isReady(acct) {
          RingNext(n, idx);
          nextAccountIdx := (idx + 1) % n;
          return acct;
        }
      }
      RingStep(n, ptr, 1);
      var fallbackIdx := nextAccountIdx % n;
      nextAccountIdx := (nextAccountIdx + 1) % n;
      return accounts[fallbackIdx];
    }
  }
}
