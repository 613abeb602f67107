/** `connect_with_retry` of domoticz_fridge_control.py: up to `max_attempts`
    connection attempts, a five-second sleep after every failed attempt
    except the last, the client of the first successful attempt, and None
    once every attempt has failed. The transport is replaced by `ok`, the
    answer it gives to each attempt in turn; the sleeps are counted. */
module ConnectRetry {

  /** How a retry run ends. `ProcessExit` is only reached by the variant in
      test_fridge.py, which calls `sys.exit(1)` instead of returning None. */
  datatype End = Client(attempt: nat) | NoClient | ProcessExit(status: int)

  datatype Connect = Connect(attempts: nat, sleeps: nat, end: End)

  /** The number of iterations of `range(max_attempts)`. */
  function Budget(maxAttempts: int): (n: nat)
    ensures maxAttempts > 0 ==> n == maxAttempts
    ensures maxAttempts <= 0 ==> n == 0
  {
    if maxAttempts > 0 then maxAttempts else 0
  }

  /** The first successful attempt among the first `n`, or `n` if none. */
  function FirstSuccess(ok: seq<bool>, n: nat): (k: nat)
    requires n <= |ok|
    ensures k <= n
    ensures k < n ==> ok[k]
    ensures forall j :: 0 <= j < k ==> !ok[j]
  {
    if n == 0 then 0
    else
      var k := FirstSuccess(ok, n - 1);
      if k < n - 1 then k else if ok[n - 1] then n - 1 else n
  }

  /** What a retry run does, stated outright: it stops at the first
      success, never makes more than `max_attempts` attempts, sleeps once
      between consecutive attempts and never after the last, and returns
      no client exactly when every allowed attempt failed (including when
      no attempt is allowed at all). */
  function RetryOutcome(ok: seq<bool>, maxAttempts: int): (c: Connect)
    requires maxAttempts <= |ok|
    ensures c.attempts <= Budget(maxAttempts)
    ensures c.sleeps == if c.attempts > 0 then c.attempts - 1 else 0
    ensures !c.end.ProcessExit?
    ensures c.end.Client? ==>
      && c.end.attempt == c.attempts - 1
      && ok[c.end.attempt]
      && forall j :: 0 <= j < c.end.attempt ==> !ok[j]
    ensures c.end.NoClient? <==> forall j :: 0 <= j < Budget(maxAttempts) ==> !ok[j]
    ensures c.end.NoClient? ==> c.attempts == Budget(maxAttempts)
  {
    var n := Budget(maxAttempts);
    var k := FirstSuccess(ok, n);
    if k < n then Connect(k + 1, k, Client(k))
    else Connect(n, if n > 0 then n - 1 else 0, NoClient)
  }

  /** The attempt loop itself. */
  method ConnectWithRetry(ok: seq<bool>, maxAttempts: int) returns (c: Connect)
    requires maxAttempts <= |ok|
    ensures c == RetryOutcome(ok, maxAttempts)
  {
    var attempt := 0;
    var sleeps := 0;
    while attempt < maxAttempts
      invariant 0 <= attempt <= Budget(maxAttempts)
      invariant maxAttempts > 0 ==> attempt < maxAttempts
      invariant sleeps == attempt
      invariant FirstSuccess(ok, attempt) == attempt
    {
      if ok[attempt] {
        return Connect(attempt + 1, sleeps, Client(attempt));
      }
      if attempt < maxAttempts - 1 {
        sleeps := sleeps + 1;
      } else {
        return Connect(attempt + 1, sleeps, NoClient);
      }
      attempt := attempt + 1;
    }
    return Connect(0, 0, NoClient);
  }

  /** Retry exhaustion: three attempts against a transport that always
      fails make three attempts with two sleeps between them and no client. */
  lemma ExhaustionExample(ok: seq<bool>)
    requires |ok| == 3 && !ok[0] && !ok[1] && !ok[2]
    ensures RetryOutcome(ok, 3) == Connect(3, 2, NoClient)
  {
  }
}
