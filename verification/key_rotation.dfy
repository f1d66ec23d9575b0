/** The YouTube API key manager: a list of keys, the index of the current
    one, per-key usage and last-use times, and a daily limit.  Usage of a key
    resets once a day has passed since it was last used.  The clock is a
    parameter: `now` is the value the manager reads from `time.time()`. */
module KeyRotation {
  import opened Wrappers

  const DailyQuota := 10000
  const Day := 86400

  datatype KeyManager = KeyManager(
    apiKeys: seq<string>,
    currentKeyIndex: int,
    quotaUsage: map<string, int>,
    lastUsed: map<string, int>,
    dailyQuotaLimit: int)

  /** Every listed key has usage and a last-use time; with keys, the index
      points at one of them. */
  predicate Valid(m: KeyManager) {
    && 0 <= m.currentKeyIndex
    && (|m.apiKeys| > 0 ==> m.currentKeyIndex < |m.apiKeys|)
    && (|m.apiKeys| == 0 ==> m.currentKeyIndex == 0)
    && (forall k :: k in m.apiKeys ==> k in m.quotaUsage && k in m.lastUsed)
  }

  /** Usage is recorded for listed keys only. */
  predicate Tracked(m: KeyManager) {
    forall k :: k in m.quotaUsage ==> k in m.apiKeys
  }

  /** `YouTubeKeyManager(api_keys)`. */
  function NewKeyManager(keys: seq<string>): (m: KeyManager)
    ensures Valid(m) && Tracked(m)
    ensures m.currentKeyIndex == 0 && m.dailyQuotaLimit == DailyQuota
    ensures m.apiKeys == keys
    ensures forall k :: k in keys ==> m.quotaUsage[k] == 0 && m.lastUsed[k] == 0
  {
    var zero := map k | k in keys :: 0;
    KeyManager(keys, 0, zero, zero, DailyQuota)
  }

  /** A position `p` below `2 * n` brought back into `[0, n)`. */
  function Wrap(p: int, n: int): (r: int)
    requires 0 <= p < 2 * n
    ensures 0 <= r < n && (r == p || r == p - n)
  {
    if p < n then p else p - n
  }

  /** Stepping the index with the manager's modulo wraps to zero at the end. */
  lemma ModNext(i: int, n: int)
    requires 0 <= i < n
    ensures (i + 1) % n == Wrap(i + 1, n)
  {
    if i + 1 == n {
      assert (i + 1) % n == n % n;
    }
  }

  /** The key `j` places after the current one, cyclically. */
  function KeyAt(m: KeyManager, j: int): string
    requires Valid(m) && |m.apiKeys| > 0 && 0 <= j <= |m.apiKeys|
  {
    m.apiKeys[Wrap(m.currentKeyIndex + j, |m.apiKeys|)]
  }

  /** The current key. */
  function Current(m: KeyManager): string
    requires Valid(m) && |m.apiKeys| > 0
  {
    m.apiKeys[m.currentKeyIndex]
  }

  /** The daily reset of the current key: its usage drops to zero once a
      day has passed since it was last used. */
  function ResetCurrent(m: KeyManager, now: int): (m1: KeyManager)
    requires Valid(m) && |m.apiKeys| > 0
    ensures Valid(m1) && m1.apiKeys == m.apiKeys && m1.currentKeyIndex == m.currentKeyIndex
    ensures m1.lastUsed == m.lastUsed && m1.dailyQuotaLimit == m.dailyQuotaLimit
    ensures m1.quotaUsage.Keys == m.quotaUsage.Keys
    ensures m1.quotaUsage[Current(m)] == if now - m.lastUsed[Current(m)] >= Day then 0 else m.quotaUsage[Current(m)]
    ensures forall k :: k in m.apiKeys && k != Current(m) ==> m1.quotaUsage[k] == m.quotaUsage[k]
  {
    var key := Current(m);
    if now - m.lastUsed[key] >= Day then m.(quotaUsage := m.quotaUsage[key := 0]) else m
  }

  /** `current_key_index = (current_key_index + 1) % len(api_keys)`. */
  function Advance(m: KeyManager): (m1: KeyManager)
    requires Valid(m) && |m.apiKeys| > 0
    ensures Valid(m1) && m1.currentKeyIndex == Wrap(m.currentKeyIndex + 1, |m.apiKeys|)
    ensures m1 == m.(currentKeyIndex := m1.currentKeyIndex)
  {
    ModNext(m.currentKeyIndex, |m.apiKeys|);
    m.(currentKeyIndex := (m.currentKeyIndex + 1) % |m.apiKeys|)
  }

  /** `n` more rounds of the loop in `get_current_key`. */
  function Scan(m: KeyManager, now: int, n: nat): (r: (KeyManager, Option<string>))
    requires Valid(m)
    ensures Valid(r.0)
    ensures r.0.apiKeys == m.apiKeys && r.0.lastUsed == m.lastUsed && r.0.dailyQuotaLimit == m.dailyQuotaLimit
    ensures r.0.quotaUsage.Keys == m.quotaUsage.Keys
    ensures r.1.Some? ==> |r.0.apiKeys| > 0 && r.1.value == r.0.apiKeys[r.0.currentKeyIndex]
                          && r.1.value in r.0.quotaUsage && r.0.quotaUsage[r.1.value] < r.0.dailyQuotaLimit
                          && (now - m.lastUsed[r.1.value] >= Day ==> r.0.quotaUsage[r.1.value] == 0)
    ensures forall k :: k in m.apiKeys ==>
      (k in r.0.quotaUsage &&
       (r.0.quotaUsage[k] == m.quotaUsage[k] || (r.0.quotaUsage[k] == 0 && now - m.lastUsed[k] >= Day)))
    ensures r.1.None? && 0 < |m.apiKeys| && n <= |m.apiKeys| ==> Exhausted(m, r.0, n)
    ensures r.1.Some? && n <= |m.apiKeys| ==> exists j :: 0 <= j < n && Exhausted(m, r.0, j)
    decreases n
  {
    if n == 0 || |m.apiKeys| == 0 then (m, None)
    else
      var m1 := ResetCurrent(m, now);
      if m1.quotaUsage[Current(m)] < m.dailyQuotaLimit then
        assert Exhausted(m, m1, 0);
        (m1, Some(Current(m)))
      else
        var m2 := Advance(m1);
        var r := Scan(m2, now, n - 1);
        if n <= |m.apiKeys| then
          assert Current(m) in m2.apiKeys && m2.quotaUsage[Current(m)] >= m.dailyQuotaLimit;
          if r.1.None? then
            ShiftExhausted(m, m2, r.0, n);
            r
          else
            ShiftSomeExhausted(m, m2, r.0, n);
            r
        else r
  }

  /** The `n` keys from the current one on are all at or over the limit in
      `m'`, and the index of `m'` has moved on by `n`. */
  predicate Exhausted(m: KeyManager, m': KeyManager, n: nat)
    requires Valid(m) && Valid(m') && m'.apiKeys == m.apiKeys && 0 < |m.apiKeys| && n <= |m.apiKeys|
  {
    && m'.currentKeyIndex == Wrap(m.currentKeyIndex + n, |m.apiKeys|)
    && forall j :: 0 <= j < n ==> m'.quotaUsage[KeyAt(m, j)] >= m.dailyQuotaLimit
  }

  /** The skipped-key fact of `n - 1` rounds, shifted by one exhausted round. */
  lemma ShiftSomeExhausted(m: KeyManager, m2: KeyManager, m': KeyManager, n: nat)
    requires Valid(m) && Valid(m2) && Valid(m') && |m.apiKeys| > 0 && 0 < n <= |m.apiKeys|
    requires m2.apiKeys == m.apiKeys && m'.apiKeys == m.apiKeys && m2.dailyQuotaLimit == m.dailyQuotaLimit
    requires m2.currentKeyIndex == Wrap(m.currentKeyIndex + 1, |m.apiKeys|)
    requires m'.quotaUsage[Current(m)] >= m.dailyQuotaLimit
    requires exists j :: 0 <= j < n - 1 && Exhausted(m2, m', j)
    ensures exists j :: 0 <= j < n && Exhausted(m, m', j)
  {
    var j :| 0 <= j < n - 1 && Exhausted(m2, m', j);
    ShiftExhausted(m, m2, m', j + 1);
  }

  /** `get_current_key`: one round per key at most.  A key it returns is
      the first usable one cyclically from the current index: the index now
      points at it, and every key passed over on the way is at or over the
      limit after its daily reset. */
  function GetCurrentKey(m: KeyManager, now: int): (r: (KeyManager, Option<string>))
    requires Valid(m)
    ensures Valid(r.0) && r.0.apiKeys == m.apiKeys && r.0.lastUsed == m.lastUsed
    ensures r.1.Some? ==>
      && r.1.value in m.apiKeys && r.1.value in m.lastUsed && r.1.value in r.0.quotaUsage
      && r.0.quotaUsage[r.1.value] < m.dailyQuotaLimit
      && (now - m.lastUsed[r.1.value] >= Day ==> r.0.quotaUsage[r.1.value] == 0)
      && r.1.value == r.0.apiKeys[r.0.currentKeyIndex]
      && exists j :: 0 <= j < |m.apiKeys| && Exhausted(m, r.0, j)
  {
    Scan(m, now, |m.apiKeys|)
  }

  /** `next_key`; with no keys the modulo by zero raises. */
  function NextKey(m: KeyManager, now: int): (r: Result<(KeyManager, Option<string>)>)
    requires Valid(m)
    ensures r.Failure? <==> |m.apiKeys| == 0
  {
    if |m.apiKeys| == 0 then Failure("integer division or modulo by zero")
    else Success(GetCurrentKey(Advance(m), now))
  }

  /** The first two statements of `update_quota_usage`: charge the cost to
      the key and stamp its last use. */
  function Charge(m: KeyManager, key: string, cost: int, now: int): (m1: KeyManager)
    requires Valid(m) && key in m.quotaUsage
    ensures Valid(m1) && m1.apiKeys == m.apiKeys && m1.currentKeyIndex == m.currentKeyIndex
  {
    m.(quotaUsage := m.quotaUsage[key := m.quotaUsage[key] + cost], lastUsed := m.lastUsed[key := now])
  }

  /** `update_quota_usage`; an unknown key raises `KeyError`.  When the key
      reaches the limit the manager moves on to the next key.  The handler
      reads `time.time()` twice (here and again inside `next_key`); the model
      uses the one reading `now` for both. */
  function UpdateQuotaUsage(m: KeyManager, key: string, cost: int, now: int): (r: Result<KeyManager>)
    requires Valid(m)
    ensures key !in m.quotaUsage ==> r.Failure?
    ensures key in m.apiKeys ==> r.Success?
    ensures r.Success? ==> Valid(r.value) && r.value.apiKeys == m.apiKeys && r.value.quotaUsage.Keys == m.quotaUsage.Keys
  {
    if key !in m.quotaUsage then Failure("KeyError")
    else
      var m1 := Charge(m, key, cost, now);
      if m1.quotaUsage[key] >= m.dailyQuotaLimit then
        match NextKey(m1, now)
        case Success(p) => Success(p.0)
        case Failure(e) => Failure(e)
      else Success(m1)
  }

  /** `get_available_quota`: never negative; an unknown key has the full limit. */
  function GetAvailableQuota(m: KeyManager, key: string): (r: int)
    ensures r >= 0
    ensures key !in m.quotaUsage ==> r == (if m.dailyQuotaLimit > 0 then m.dailyQuotaLimit else 0)
    ensures r >= m.dailyQuotaLimit - (if key in m.quotaUsage then m.quotaUsage[key] else 0)
    ensures r == 0 || r == m.dailyQuotaLimit - (if key in m.quotaUsage then m.quotaUsage[key] else 0)
  {
    var used := if key in m.quotaUsage then m.quotaUsage[key] else 0;
    if m.dailyQuotaLimit - used > 0 then m.dailyQuotaLimit - used else 0
  }

  /** `is_quota_available(key, required)`. */
  predicate IsQuotaAvailable(m: KeyManager, key: string, required: int) {
    GetAvailableQuota(m, key) >= required
  }

  // ---------------------------------------------------------------------
  // Properties
  // ---------------------------------------------------------------------

  /** With keys, the index stays in range through every operation. */
  lemma IndexInRange(m: KeyManager, now: int)
    requires Valid(m) && |m.apiKeys| > 0
    ensures 0 <= GetCurrentKey(m, now).0.currentKeyIndex < |m.apiKeys|
    ensures 0 <= NextKey(m, now).value.0.currentKeyIndex < |m.apiKeys|
  {
  }

  /** One exhausted round in front of `n - 1` exhausted ones makes `n`. */
  lemma ShiftExhausted(m: KeyManager, m2: KeyManager, m': KeyManager, n: nat)
    requires Valid(m) && Valid(m2) && Valid(m') && |m.apiKeys| > 0 && 0 < n <= |m.apiKeys|
    requires m2.apiKeys == m.apiKeys && m'.apiKeys == m.apiKeys && m2.dailyQuotaLimit == m.dailyQuotaLimit
    requires m2.currentKeyIndex == Wrap(m.currentKeyIndex + 1, |m.apiKeys|)
    requires m'.quotaUsage[Current(m)] >= m.dailyQuotaLimit
    requires Exhausted(m2, m', n - 1)
    ensures Exhausted(m, m', n)
  {
    forall j | 0 <= j < n
      ensures m'.quotaUsage[KeyAt(m, j)] >= m.dailyQuotaLimit
    {
      if j > 0 {
        assert KeyAt(m, j) == KeyAt(m2, j - 1);
      } else {
        assert KeyAt(m, j) == Current(m);
      }
    }
  }

  /** `get_current_key` returns `None` only when every key is at or over
      the limit after the daily resets; the index is then back where it was. */
  lemma NoneMeansAllExhausted(m: KeyManager, now: int)
    requires Valid(m) && GetCurrentKey(m, now).1.None?
    ensures forall i :: 0 <= i < |m.apiKeys| ==>
      GetCurrentKey(m, now).0.quotaUsage[m.apiKeys[i]] >= m.dailyQuotaLimit
    ensures GetCurrentKey(m, now).0.currentKeyIndex == m.currentKeyIndex
  {
    if |m.apiKeys| > 0 {
      var r := GetCurrentKey(m, now);
      forall i | 0 <= i < |m.apiKeys|
        ensures r.0.quotaUsage[m.apiKeys[i]] >= m.dailyQuotaLimit
      {
        var j := KeyAtIndex(m, i);
      }
    }
  }

  /** Every key is some number of places after the current one. */
  lemma KeyAtIndex(m: KeyManager, i: int) returns (j: int)
    requires Valid(m) && 0 <= i < |m.apiKeys|
    ensures 0 <= j < |m.apiKeys| && KeyAt(m, j) == m.apiKeys[i]
  {
    j := if i >= m.currentKeyIndex then i - m.currentKeyIndex else i - m.currentKeyIndex + |m.apiKeys|;
  }

  /** Recording use charges the cost to that key alone and stamps its time;
      moving on to the next key may only apply daily resets to the others. */
  lemma UpdateQuotaUsageSpec(m: KeyManager, key: string, cost: int, now: int)
    requires Valid(m) && key in m.apiKeys
    ensures UpdateQuotaUsage(m, key, cost, now).Success?
    ensures var m' := UpdateQuotaUsage(m, key, cost, now).value;
      && Valid(m')
      && m'.quotaUsage[key] == m.quotaUsage[key] + cost
      && m'.lastUsed == m.lastUsed[key := now]
      && (forall k :: k in m.apiKeys && k != key ==>
            (k in m'.quotaUsage &&
             (m'.quotaUsage[k] == m.quotaUsage[k] || (m'.quotaUsage[k] == 0 && now - m.lastUsed[k] >= Day))))
      && (m.quotaUsage[key] + cost < m.dailyQuotaLimit ==>
            m'.quotaUsage == m.quotaUsage[key := m.quotaUsage[key] + cost] && m'.currentKeyIndex == m.currentKeyIndex)
      && (m.quotaUsage[key] + cost >= m.dailyQuotaLimit ==>
            m' == GetCurrentKey(Advance(Charge(m, key, cost, now)), now).0)
  {
  }

  /** Reaching the limit moves the index off the current key: to the first
      key after it, cyclically, that is usable, every key passed over being at
      or over the limit; with no usable key the index stops one place on. */
  lemma UpdateQuotaUsageAdvances(m: KeyManager, key: string, cost: int, now: int)
    requires Valid(m) && key in m.apiKeys
    requires m.quotaUsage[key] + cost >= m.dailyQuotaLimit
    ensures var m' := UpdateQuotaUsage(m, key, cost, now).value;
      var a := Advance(Charge(m, key, cost, now));
      && (GetCurrentKey(a, now).1.Some? ==>
            m'.quotaUsage[m'.apiKeys[m'.currentKeyIndex]] < m.dailyQuotaLimit &&
            exists j :: 0 <= j < |m.apiKeys| && Exhausted(a, m', j))
      && (GetCurrentKey(a, now).1.None? ==>
            m'.currentKeyIndex == Wrap(m.currentKeyIndex + 1, |m.apiKeys|) &&
            forall i :: 0 <= i < |m.apiKeys| ==> m'.quotaUsage[m.apiKeys[i]] >= m.dailyQuotaLimit)
  {
    var a := Advance(Charge(m, key, cost, now));
    if GetCurrentKey(a, now).1.None? {
      NoneMeansAllExhausted(a, now);
    }
  }

  /** Recording use fails exactly for an unlisted key, and keeps usage to
      listed keys. */
  lemma UnknownKeyFails(m: KeyManager, key: string, cost: int, now: int)
    requires Valid(m) && Tracked(m)
    ensures UpdateQuotaUsage(m, key, cost, now).Failure? <==> key !in m.apiKeys
    ensures UpdateQuotaUsage(m, key, cost, now).Success? ==> Tracked(UpdateQuotaUsage(m, key, cost, now).value)
  {
  }
}
