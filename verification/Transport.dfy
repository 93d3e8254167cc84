/** Requests that are retried with a growing pause. */
module Transport {
  import opened Strings

  const MAX_RETRIES := 5
  const BACKOFF_MULTIPLIER := 10
  const SECOND := 1_000_000_000
  const MAX_INT64 := 0x7FFF_FFFF_FFFF_FFFF

  /** The value a 64-bit signed integer takes. */
  function Int64(x: int): int {
    (x + 0x8000_0000_0000_0000) % 0x1_0000_0000_0000_0000 - 0x8000_0000_0000_0000
  }

  /** What one call gives: a response's status code, if there is a response, and an error or not. */
  datatype Reply = Reply(status: Option<int>, retry: bool, failed: bool)

  /** What the HTTP client gives: an error, perhaps with a response, or a response whose body decodes or does not. */
  datatype Exchange = Broken(response: Option<int>) | Answered(status: int, decodes: bool)

  predicate ShouldRetry(code: int) {
    code in {408, 500, 502, 503, 504, 522, 524, 599}
  }

  function Judge(x: Exchange): Reply {
    match x
    case Broken(response) => Reply(response, response.Some?, true)
    case Answered(status, decodes) =>
      if 200 <= status < 300 then Reply(Some(status), false, !decodes)
      else Reply(Some(status), ShouldRetry(status), true)
  }

  /** The pause before retry number `i`: ten times the one before it, in 64 bits. */
  function PauseAt(backoff: int, i: nat): int {
    if i == 0 then backoff else Int64(PauseAt(backoff, i - 1) * BACKOFF_MULTIPLIER)
  }

  function Pauses(backoff: int, n: nat): seq<int> {
    seq(n, i requires 0 <= i => PauseAt(backoff, i))
  }

  function Sum(s: seq<int>): int {
    if s == [] then 0 else Sum(s[..|s| - 1]) + s[|s| - 1]
  }

  function Pow10(n: nat): nat {
    if n == 0 then 1 else 10 * Pow10(n - 1)
  }

  /** `fn(i)` is what the request gives the i-th time. The last call's answer is returned; every earlier one asked for
      a retry, and so does the last only when no retry is left. */
  method Retry(retries: int, backoff: int, fn: nat -> Reply) returns (last: Reply, calls: nat, slept: seq<int>)
    ensures 1 <= calls <= if retries <= 0 then 1 else retries + 1
    ensures last == fn(calls - 1)
    ensures forall i: nat :: i < calls - 1 ==> fn(i).retry
    ensures last.retry ==> calls == if retries <= 0 then 1 else retries + 1
    ensures slept == Pauses(backoff, calls - 1)
  {
    var left, pause := retries, backoff;
    var call := 0;
    slept := [];
    while true
      invariant call == |slept| && left == retries - call && (call > 0 ==> left >= 0)
      invariant forall i: nat :: i < call ==> fn(i).retry
      invariant slept == Pauses(backoff, call) && pause == PauseAt(backoff, call)
      decreases left
    {
      var reply := fn(call);
      if reply.retry {
        if left <= 0 {
          return reply, call + 1, slept;
        }
        left := left - 1;
        slept := slept + [pause];
        pause := Int64(pause * BACKOFF_MULTIPLIER);
        call := call + 1;
      } else {
        return reply, call + 1, slept;
      }
    }
  }

  lemma {:induction false} PauseGrows(backoff: nat, i: nat)
    requires backoff * Pow10(i) <= MAX_INT64
    ensures PauseAt(backoff, i) == backoff * Pow10(i)
  {
    if i > 0 {
      assert backoff * Pow10(i) == 10 * (backoff * Pow10(i - 1));
      PauseGrows(backoff, i - 1);
    }
  }

  /** As long as the pauses fit 64 bits, the first `n` of them add up to backoff * (10^n - 1) / 9. */
  lemma {:induction false} PauseTotal(backoff: nat, n: nat)
    requires backoff * Pow10(n) <= MAX_INT64
    ensures 9 * Sum(Pauses(backoff, n)) == backoff * (Pow10(n) - 1)
  {
    if n > 0 {
      assert backoff * Pow10(n) == 10 * (backoff * Pow10(n - 1));
      PauseTotal(backoff, n - 1);
      PauseGrows(backoff, n - 1);
      assert Pauses(backoff, n)[..n - 1] == Pauses(backoff, n - 1);
      assert backoff * (Pow10(n) - 1) == backoff * (Pow10(n - 1) - 1) + 9 * (backoff * Pow10(n - 1));
    }
  }

  /** Event delivery waits at most 11111 seconds in all, and its pause in nanoseconds never leaves 64 bits. */
  lemma DeliveryWaitBounded(n: nat)
    requires n <= MAX_RETRIES
    ensures Sum(Pauses(SECOND, n)) <= 11111 * SECOND
    ensures 9 * Sum(Pauses(SECOND, n)) == SECOND * (Pow10(n) - 1)
    ensures SECOND * Pow10(n) <= MAX_INT64
  {
    assert Pow10(0) == 1 && Pow10(1) == 10 && Pow10(2) == 100;
    assert Pow10(3) == 1000;
    assert Pow10(4) == 10000;
    assert Pow10(5) == 100000;
    PauseTotal(SECOND, n);
  }

  /** A post that was not sent, in local mode or because its input could not be encoded, or one that was. */
  datatype Post = NotSent(failed: bool) | Sent(last: Reply, calls: nat, slept: seq<int>)

  method PostRequestInternal(localMode: bool, encodes: bool, retries: int, backoff: int, exchanges: nat -> Exchange)
    returns (r: Post)
    ensures r.NotSent? <==> localMode || !encodes
    ensures r.NotSent? ==> r.failed == !localMode
    ensures r.Sent? ==> Delivery(r, retries, backoff, exchanges)
  {
    if localMode {
      return NotSent(false);
    }
    if !encodes {
      return NotSent(true);
    }
    var fn := (i: nat) => Judge(exchanges(i));
    var last, calls, slept := Retry(retries, backoff, fn);
    forall i: nat | i < calls - 1 ensures Judge(exchanges(i)).retry {
      assert fn(i).retry;
    }
    return Sent(last, calls, slept);
  }

  /** `exchanges(i)` is what the HTTP client gives the i-th time: all but the last were to be retried, and so was the
      last only if no retry was left. */
  ghost predicate Delivery(r: Post, retries: int, backoff: int, exchanges: nat -> Exchange)
    requires r.Sent?
  {
    && r.calls >= 1 && r.last == Judge(exchanges(r.calls - 1))
    && (forall i: nat :: i < r.calls - 1 ==> Judge(exchanges(i)).retry)
    && r.calls <= (if retries <= 0 then 1 else retries + 1)
    && (r.last.retry ==> r.calls == if retries <= 0 then 1 else retries + 1)
    && r.slept == Pauses(backoff, r.calls - 1)
  }

  /** An answer after which the request is sent again: an error that came with a response, or one of these statuses. */
  predicate AsksAgain(x: Exchange) {
    match x
    case Broken(response) => response.Some?
    case Answered(status, _) => status in {408, 500, 502, 503, 504, 522, 524, 599}
  }

  /** Events are sent again, after pauses of 1, 10, 100, ... seconds, until an answer does not ask for it or five
      retries are used up. Delivery succeeds exactly if the last answer is a 2xx that decodes. It takes at most 11111
      seconds of sleep. */
  lemma EventDelivery(r: Post, exchanges: nat -> Exchange)
    requires r.Sent? && Delivery(r, MAX_RETRIES, SECOND, exchanges)
    ensures 1 <= r.calls <= 6 && (r.calls == 6 || !AsksAgain(exchanges(r.calls - 1)))
    ensures forall i: nat :: i < r.calls - 1 ==> AsksAgain(exchanges(i))
    ensures !r.last.failed <==> var x := exchanges(r.calls - 1); x.Answered? && 200 <= x.status < 300 && x.decodes
    ensures r.last.status == var x := exchanges(r.calls - 1); if x.Broken? then x.response else Some(x.status)
    ensures |r.slept| == r.calls - 1 && forall i :: 0 <= i < |r.slept| ==> r.slept[i] == 1_000_000_000 * Pow10(i)
    ensures Sum(r.slept) <= 11_111_000_000_000
  {
    DeliveryWaitBounded(r.calls - 1);
    forall i: nat | i < r.calls - 1 ensures AsksAgain(exchanges(i)) {
      assert Judge(exchanges(i)).retry;
    }
    forall i | 0 <= i < |r.slept| ensures r.slept[i] == 1_000_000_000 * Pow10(i) {
      Pow10Grows(i, r.calls - 1);
      PauseGrows(SECOND, i);
    }
  }

  lemma {:induction false} Pow10Grows(i: nat, n: nat)
    requires i <= n
    ensures Pow10(i) <= Pow10(n)
  {
    if i < n {
      Pow10Grows(i, n - 1);
    }
  }
}
