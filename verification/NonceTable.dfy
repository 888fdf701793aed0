/** The table of used nonces: how long it must remember one for the time window of signed requests
    (`backend/app/services/device_authentication.py`). */
module NonceTable {
  /** Clock readings are in microseconds, timestamps and settings in seconds. */
  const SECOND := 1_000_000

  type NonceKey = (int, string)

  /** Expiry times by credential and nonce hash, and when each credential was last used. */
  datatype Store = Store(nonces: map<NonceKey, int>, lastUsed: map<int, int>)

  const EMPTY := Store(map[], map[])

  /** Allowed clock skew and lifetime of a nonce. */
  datatype Limits = Limits(skew: nat, ttl: nat)

  /** What the table sees of a request: whether everything but its time is in order, the second it was
      signed in, its nonce, the clock when the timestamp is compared, and when the nonce is stored. */
  datatype Try = Try(genuine: bool, stamp: int, key: NonceKey, checkedAt: int, now: int)

  predicate Fresh(skew: nat, stamp: int, at: int) {
    var gap := at - stamp * SECOND;
    (if gap < 0 then -gap else gap) <= skew * SECOND
  }

  function Purged(nonces: map<NonceKey, int>, now: int): map<NonceKey, int> {
    map k | k in nonces && nonces[k] > now :: nonces[k]
  }

  /** Expired nonces go; the new one must be unused and must expire after it is observed. */
  function Spend(ttl: nat, s: Store, key: NonceKey, now: int): (r: (bool, Store))
    ensures !r.0 ==> r.1 == s
  {
    var left := Purged(s.nonces, now);
    if key in left || ttl == 0 then (false, s)
    else (true, Store(left[key := now + ttl * SECOND], s.lastUsed[key.0 := now]))
  }

  predicate Passes(l: Limits, a: Try) { a.genuine && Fresh(l.skew, a.stamp, a.checkedAt) }

  /** Whatever is refused is rolled back. */
  function Attempted(l: Limits, s: Store, a: Try): (r: (bool, Store))
    ensures !r.0 ==> r.1 == s
  {
    if Passes(l, a) then Spend(l.ttl, s, a.key, a.now) else (false, s)
  }

  function Run(l: Limits, s: Store, tries: seq<Try>): Store
    decreases |tries|
  {
    if |tries| == 0 then s else Run(l, Attempted(l, s, tries[0]).1, tries[1..])
  }

  predicate AcceptedAt(l: Limits, s: Store, tries: seq<Try>, k: nat)
    requires k < |tries|
  {
    Attempted(l, Run(l, s, tries[..k]), tries[k]).0
  }

  /** Stores happen in clock order, each at most `delay` microseconds after its timestamp check. */
  ghost predicate Timely(tries: seq<Try>, delay: nat) {
    && (forall i :: 0 <= i < |tries| ==> 0 <= tries[i].now - tries[i].checkedAt <= delay)
    && (forall i, j :: 0 <= i < j < |tries| ==> tries[i].now <= tries[j].now)
  }

  // ----- nonces outlive their requests

  lemma Remembered(l: Limits, s: Store, a: Try, key: NonceKey)
    requires key in s.nonces && s.nonces[key] > a.now
    ensures key in Attempted(l, s, a).1.nonces && Attempted(l, s, a).1.nonces[key] == s.nonces[key]
  {
  }

  lemma {:induction false} RememberedThroughRun(l: Limits, s: Store, tries: seq<Try>, key: NonceKey, until: int)
    requires key in s.nonces && s.nonces[key] > until
    requires forall i :: 0 <= i < |tries| ==> tries[i].now <= until
    ensures key in Run(l, s, tries).nonces && Run(l, s, tries).nonces[key] == s.nonces[key]
    decreases |tries|
  {
    if |tries| > 0 {
      Remembered(l, s, tries[0], key);
      RememberedThroughRun(l, Attempted(l, s, tries[0]).1, tries[1..], key, until);
    }
  }

  lemma {:induction false} RunSplits(l: Limits, s: Store, first: seq<Try>, rest: seq<Try>)
    ensures Run(l, s, first + rest) == Run(l, Run(l, s, first), rest)
    decreases |first|
  {
    if |first| == 0 {
      assert first + rest == rest;
    } else {
      assert (first + rest)[1..] == first[1..] + rest;
      RunSplits(l, Attempted(l, s, first[0]).1, first[1..], rest);
    }
  }

  lemma RunThrough(l: Limits, s: Store, tries: seq<Try>, i: nat, j: nat)
    requires i < j <= |tries|
    ensures Run(l, s, tries[..j]) == Run(l, Attempted(l, Run(l, s, tries[..i]), tries[i]).1, tries[i + 1..j])
  {
    var rest := [tries[i]] + tries[i + 1..j];
    assert tries[..j] == tries[..i] + rest;
    RunSplits(l, s, tries[..i], rest);
    assert rest[1..] == tries[i + 1..j];
  }

  lemma SpentNonceIsRefused(l: Limits, before: Store, first: Try, between: seq<Try>, second: Try, delay: nat)
    requires 2 * l.skew * SECOND + delay < l.ttl * SECOND && first.stamp == second.stamp && first.key == second.key
    requires first.checkedAt <= first.now && second.now <= second.checkedAt + delay
    requires forall k :: 0 <= k < |between| ==> between[k].now <= second.now
    requires Attempted(l, before, first).0
    ensures !Attempted(l, Run(l, Attempted(l, before, first).1, between), second).0
  {
    if Passes(l, second) {
      RememberedThroughRun(l, Attempted(l, before, first).1, between, first.key, second.now);
    }
  }

  /** While the nonce lifetime exceeds twice the skew and the delay, no run accepts two requests
      with the same timestamp, credential and nonce, from whatever nonces it starts. */
  lemma NoReplayInTime(l: Limits, s: Store, tries: seq<Try>, delay: nat, i: nat, j: nat)
    requires 2 * l.skew * SECOND + delay < l.ttl * SECOND
    requires Timely(tries, delay) && i < j < |tries|
    requires tries[i].stamp == tries[j].stamp && tries[i].key == tries[j].key
    ensures !(AcceptedAt(l, s, tries, i) && AcceptedAt(l, s, tries, j))
  {
    if AcceptedAt(l, s, tries, i) {
      RunThrough(l, s, tries, i, j);
      SpentNonceIsRefused(l, Run(l, s, tries[..i]), tries[i], tries[i + 1..j], tries[j], delay);
    }
  }

  /** A request sent as early and as late as the skew allows, with the second store delayed. */
  function EarlyAndLate(l: Limits, stamp: int, key: NonceKey, delay: nat): seq<Try> {
    var early, late := (stamp - l.skew) * SECOND, (stamp + l.skew) * SECOND;
    [Try(true, stamp, key, early, early), Try(true, stamp, key, late, late + delay)]
  }

  lemma ReplayOutOfTime(l: Limits, stamp: int, key: NonceKey, delay: nat)
    requires 0 < l.ttl && l.ttl * SECOND <= 2 * l.skew * SECOND + delay
    ensures var tries := EarlyAndLate(l, stamp, key, delay);
            Timely(tries, delay) && AcceptedAt(l, EMPTY, tries, 0) && AcceptedAt(l, EMPTY, tries, 1)
  {
    var tries := EarlyAndLate(l, stamp, key, delay);
    assert tries[..0] == [] && tries[..1] == [tries[0]] && [tries[0]][1..] == [];
    assert Run(l, EMPTY, tries[..1]) == Attempted(l, EMPTY, tries[0]).1;
  }
}
