/** The outgoing webhook: one worker, a bounded queue, retries and a dead-letter table (internal/webhook/webhook.go).
    Times are nanoseconds. */
module Webhook {
  const QUEUE := 64

  /** How one POST ends: accepted, answered with a status, or not answered at all. */
  datatype Reply = Accepted | Refused(status: int) | Unreachable

  /** A client error other than 429 is permanent. */
  predicate Permanent(r: Reply) {
    r.Refused? && 400 <= r.status < 500 && r.status != 429
  }

  datatype Outcome = Delivered | DeadLetter

  /** What happens to an event whose POSTs would end as `replies` say: how it ends, and after how many of them. */
  ghost function Fate(replies: seq<Reply>, retries: nat, attempt: nat): (Outcome, nat)
    requires |replies| == retries + 1 && attempt <= retries + 1
    decreases retries + 1 - attempt
  {
    if attempt > retries then (DeadLetter, attempt)
    else if replies[attempt].Accepted? then (Delivered, attempt + 1)
    else if Permanent(replies[attempt]) then (DeadLetter, attempt + 1)
    else Fate(replies, retries, attempt + 1)
  }

  function Pow2(n: nat): nat {
    if n == 0 then 1 else 2 * Pow2(n - 1)
  }

  /** A refusal for good: 400 to 499, but not 429. */
  lemma PermanentIff(r: Reply)
    ensures Permanent(r) <==> exists s :: r == Refused(s) && 400 <= s <= 499 && s != 429
  {
    if r.Refused? && 400 <= r.status <= 499 && r.status != 429 { assert r == Refused(r.status); }
  }

  /** Some reply from `attempt` on accepts the event and none before it is permanent. */
  ghost predicate Deliverable(replies: seq<Reply>, attempt: nat) {
    exists k :: AcceptedAt(replies, attempt, k)
  }

  ghost predicate AcceptedAt(replies: seq<Reply>, attempt: nat, k: nat) {
    attempt <= k < |replies| && replies[k].Accepted? && forall i :: attempt <= i < k ==> !Permanent(replies[i])
  }

  lemma DeliverableStep(replies: seq<Reply>, attempt: nat)
    requires attempt < |replies|
    ensures Deliverable(replies, attempt)
            <==> replies[attempt].Accepted? || (!Permanent(replies[attempt]) && Deliverable(replies, attempt + 1))
  {
    if replies[attempt].Accepted? {
      assert AcceptedAt(replies, attempt, attempt);
    } else if Deliverable(replies, attempt) {
      var k :| AcceptedAt(replies, attempt, k);
      assert AcceptedAt(replies, attempt + 1, k);
    } else if !Permanent(replies[attempt]) && Deliverable(replies, attempt + 1) {
      var k :| AcceptedAt(replies, attempt + 1, k);
      assert AcceptedAt(replies, attempt, k);
    }
  }

  /** An event is delivered exactly when some reply accepts it and none before is permanent; nothing is sent after an
      acceptance or a permanent refusal; and a dead letter used up its retries or was refused for good. */
  lemma {:induction false} FateExact(replies: seq<Reply>, retries: nat, attempt: nat)
    requires |replies| == retries + 1 && attempt <= retries + 1
    ensures var (out, n) := Fate(replies, retries, attempt);
            && attempt <= n <= retries + 1
            && (out == Delivered <==> Deliverable(replies, attempt))
            && (forall i :: attempt <= i < n - 1 ==> !replies[i].Accepted? && !Permanent(replies[i]))
            && (out == Delivered ==> n > attempt && replies[n - 1].Accepted?)
            && (out == DeadLetter ==> n == retries + 1 || (n > attempt && Permanent(replies[n - 1])))
    decreases retries + 1 - attempt
  {
    if attempt <= retries {
      DeliverableStep(replies, attempt);
      if !replies[attempt].Accepted? && !Permanent(replies[attempt]) {
        FateExact(replies, retries, attempt + 1);
      }
    }
  }

  /** Sleeps after the failed attempts before `n` can reach at most this. */
  function SleepBound(delay: nat, n: nat): int {
    delay * (Pow2(n) - 1 + n)
  }

  lemma SleepGrows(delay: nat, n: nat, m: nat)
    requires n <= m
    ensures SleepBound(delay, n) <= SleepBound(delay, m)
    decreases m - n
  {
    if n < m {
      SleepGrows(delay, n, m - 1);
      assert Pow2(m) - 1 + m >= Pow2(m - 1) - 1 + (m - 1);
      Scale(delay, Pow2(m - 1) - 1 + (m - 1), Pow2(m) - 1 + m);
    }
  }

  lemma Scale(d: nat, a: int, b: int)
    requires a <= b
    ensures d * a <= d * b
  {
  }

  lemma NextSleep(delay: nat, n: nat)
    ensures SleepBound(delay, n + 1) == SleepBound(delay, n) + delay * Pow2(n) + delay
  {
    assert Pow2(n + 1) - 1 + (n + 1) == (Pow2(n) - 1 + n) + Pow2(n) + 1;
    assert delay * ((Pow2(n) - 1 + n) + Pow2(n) + 1) == delay * (Pow2(n) - 1 + n) + delay * Pow2(n) + delay;
  }

  /** The wait before retry number `n`, without its jitter. */
  function Backoff(delay: nat, n: nat): nat { delay * Pow2(n) }

  lemma SleepStep(delay: nat, n: nat, slept: int, jitter: nat)
    requires slept == 0 || slept < SleepBound(delay, n)
    requires jitter < delay
    ensures slept + Backoff(delay, n) + jitter < SleepBound(delay, n + 1)
  {
    NextSleep(delay, n);
    Scale(delay, 0, Pow2(n) - 1 + n);
  }

  /** What is slept between `n` attempts and the next: after each refusal, doubling each time, with its jitter. */
  ghost function Slept(replies: seq<Reply>, jitter: seq<nat>, delay: nat, n: nat): nat
    requires n <= |replies| && n <= |jitter|
  {
    if n == 0 then 0
    else
      Slept(replies, jitter, delay, n - 1)
      + if replies[n - 1].Refused? then Backoff(delay, n - 1) + jitter[n - 1] else 0
  }

  /** The wait after the refused attempt `n`: the delay at first, and twice as much after each attempt, plus the jitter;
      after no answer none. */
  lemma WaitsDouble(replies: seq<Reply>, jitter: seq<nat>, delay: nat, n: nat)
    requires n < |replies| && n < |jitter|
    ensures var wait := Slept(replies, jitter, delay, n + 1) - Slept(replies, jitter, delay, n);
            if replies[n].Refused? then wait == Backoff(delay, n) + jitter[n] else wait == 0
    ensures Backoff(delay, 0) == delay
    ensures Backoff(delay, n + 1) == 2 * Backoff(delay, n)
  {
    assert delay * Pow2(n + 1) == 2 * (delay * Pow2(n));
  }

  /** If every attempt is refused, the waits add up to the delay times 2^n - 1, and the jitters. */
  lemma {:induction false} RefusedSleepsAll(replies: seq<Reply>, jitter: seq<nat>, delay: nat, n: nat)
    requires n <= |replies| && n <= |jitter| && forall i :: 0 <= i < n ==> replies[i].Refused?
    ensures Slept(replies, jitter, delay, n) == delay * (Pow2(n) - 1) + Total(jitter[..n])
  {
    if n > 0 {
      RefusedSleepsAll(replies, jitter, delay, n - 1);
      assert jitter[..n][..n - 1] == jitter[..n - 1];
      assert delay * (Pow2(n) - 1) == delay * (Pow2(n - 1) - 1) + delay * Pow2(n - 1);
    }
  }

  ghost function Total(v: seq<nat>): nat {
    if v == [] then 0 else Total(v[..|v| - 1]) + v[|v| - 1]
  }

  /** Posts until accepted, refused for good, or out of retries. A retry after a refusal waits, doubling each time,
      with a jitter below `delay`; one after no answer does not wait. */
  method SendWithRetry(replies: seq<Reply>, jitter: seq<nat>, retries: nat, delay: nat)
    returns (out: Outcome, attempts: nat, slept: int)
    requires |replies| == retries + 1 && |jitter| == retries
    requires delay > 0 && forall i :: 0 <= i < retries ==> jitter[i] < delay
    ensures (out, attempts) == Fate(replies, retries, 0)
    ensures 0 < attempts <= retries + 1 && slept == Slept(replies, jitter, delay, attempts - 1)
    ensures 0 <= slept && (slept == 0 || slept < SleepBound(delay, retries))
  {
    slept := 0;
    var attempt := 0;
    while attempt <= retries
      invariant attempt <= retries + 1
      invariant Fate(replies, retries, attempt) == Fate(replies, retries, 0)
      invariant 0 <= slept == Slept(replies, jitter, delay, if attempt <= retries then attempt else retries)
      invariant slept == 0 || slept < SleepBound(delay, if attempt <= retries then attempt else retries)
    {
      var reply := replies[attempt];
      SleepGrows(delay, attempt, retries);
      if reply.Accepted? { return Delivered, attempt + 1, slept; }
      var retryable := false;
      if reply.Refused? {
        if 400 <= reply.status < 500 && reply.status != 429 { return DeadLetter, attempt + 1, slept; }
        retryable := true;
      }
      SleepGrows(delay, attempt, attempt + 1);
      if attempt < retries && retryable {
        SleepStep(delay, attempt, slept, jitter[attempt]);
        slept := slept + Backoff(delay, attempt) + jitter[attempt];
      }
      attempt := attempt + 1;
    }
    out, attempts := DeadLetter, attempt;
  }

  datatype Event = Event(id: nat, message: string)

  /** The queue, its worker's results and the dead-letter table, which is keyed by the alert's id. */
  class Notifier {
    const retries: nat
    const delay: nat
    var queue: seq<Event>
    var done: bool
    var dead: map<nat, Event>
    ghost var accepted: seq<Event>
    ghost var taken: seq<Event>
    ghost var delivered: seq<Event>
    ghost var lost: seq<Event>
    ghost var unsaved: seq<Event>

    /** Events are taken in the order they were accepted, and none is skipped. */
    ghost predicate Valid()
      reads this
    {
      && delay > 0 && |queue| <= QUEUE && taken + queue == accepted
      && (forall e :: e in lost ==> e.id in dead || e in unsaved)
    }

    constructor (retries: nat, delay: nat)
      requires delay > 0
      ensures Valid() && queue == [] && !done && this.retries == retries && this.delay == delay
      ensures accepted == [] && delivered == [] && lost == [] && unsaved == []
    {
      this.retries, this.delay := retries, delay;
      queue, done, dead := [], false, map[];
      accepted, taken, delivered, lost, unsaved := [], [], [], [], [];
    }

    /** Enqueues unless closed or full; never waits. */
    method Notify(ev: Event)
      requires Valid()
      modifies this
      ensures Valid() && done == old(done) && dead == old(dead)
      ensures accepted == if !done && |old(queue)| < 64 then old(accepted) + [ev] else old(accepted)
      ensures taken == old(taken) && delivered == old(delivered) && lost == old(lost) && unsaved == old(unsaved)
    {
      if done { return; }
      if |queue| < QUEUE {
        assert taken + (queue + [ev]) == (taken + queue) + [ev];
        queue, accepted := queue + [ev], accepted + [ev];
      }
    }

    method Close()
      requires Valid()
      modifies this
      ensures Valid() && done && queue == old(queue) && accepted == old(accepted) && dead == old(dead)
      ensures taken == old(taken) && delivered == old(delivered) && lost == old(lost) && unsaved == old(unsaved)
    {
      done := true;
    }

    /** The worker takes the oldest event; it may still do so after `Close`, until it notices. With a URL set it ends
        in exactly one of delivered or undelivered, and the undelivered are dead letters if the table takes them:
        `saved` says whether it does, a failed insert is logged and no more. */
    method Work(url: string, replies: seq<Reply>, jitter: seq<nat>, saved: bool)
      requires Valid() && queue != []
      requires |replies| == retries + 1 && |jitter| == retries && forall i :: 0 <= i < retries ==> jitter[i] < delay
      modifies this
      ensures Valid() && done == old(done) && accepted == old(accepted)
      ensures old(queue) == [old(queue)[0]] + queue && taken == old(taken) + [old(queue)[0]]
      ensures var ev := old(queue)[0]; var out := Fate(replies, retries, 0).0;
              && delivered == (if url != "" && out == Delivered then old(delivered) + [ev] else old(delivered))
              && lost == (if url != "" && out == DeadLetter then old(lost) + [ev] else old(lost))
              && dead == (if url != "" && out == DeadLetter && saved then old(dead)[ev.id := ev] else old(dead))
              && unsaved == (if url != "" && out == DeadLetter && !saved then old(unsaved) + [ev] else old(unsaved))
    {
      var ev := queue[0];
      assert taken + queue == (taken + [ev]) + queue[1..];
      queue, taken := queue[1..], taken + [ev];
      if url == "" { return; }
      var out, attempts, slept := SendWithRetry(replies, jitter, retries, delay);
      if out == Delivered {
        delivered := delivered + [ev];
      } else {
        lost := lost + [ev];
        if saved { dead := dead[ev.id := ev]; } else { unsaved := unsaved + [ev]; }
      }
    }
  }
}
