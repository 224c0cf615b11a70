/** Sending into a bounded channel with a time-out: the value is offered again and again,
    with pauses that double. */
module BackOff {
  import opened Basics
  import opened Qos

  const EPSILON := 1000                       // nanoseconds
  const FALLBACK_NANOS := 20_000_000
  const I64_MAX := 0x7fff_ffff_ffff_ffff

  /** A duration in nanoseconds, rounded down. */
  function Nanos(d: Duration): int { (d.seconds * 0x1_0000_0000 + d.fraction) * 1_000_000_000 / 0x1_0000_0000 }

  /** Nothing is lost in the cast to 64 bits, and doubling stays inside them too. */
  lemma NanosFit(d: Duration)
    ensures -I64_MAX <= 4 * Nanos(d) <= I64_MAX
  {
    var ticks := d.seconds * 0x1_0000_0000 + d.fraction;
    assert -0x8000_0000 * 0x1_0000_0000 <= ticks < 0x8000_0000 * 0x1_0000_0000;
    assert -0x8000_0000 * 1_000_000_000 <= Nanos(d) <= 0x8000_0000 * 1_000_000_000;
  }

  lemma NanosAreLength(d: Duration)
    ensures var scaled := (d.seconds * 0x1_0000_0000 + d.fraction) * 1_000_000_000;
            Nanos(d) * 0x1_0000_0000 <= scaled < (Nanos(d) + 1) * 0x1_0000_0000
  {
  }

  function TimeoutNanos(timeout: Option<Duration>): int {
    if timeout.Some? then Nanos(timeout.value) else FALLBACK_NANOS
  }

  /** What the channel says to one offer. */
  datatype Answer = Accepted | Full | Disconnected

  datatype Outcome<+T> = Sent | StillFull(value: T) | Gone(value: T)

  /** All offers before the n-th found the channel full. */
  ghost predicate FullBefore(answer: nat -> Answer, n: nat) { forall i: nat :: i < n ==> answer(i) == Full }

  /** Sleeps less than twice the time-out, and if the channel stays full at least the
      time-out, each to within a microsecond; queues the value at most once, and gives
      it back if it was not queued. The i-th offer is answered by answer(i). */
  method TrySendTimeout<T>(t: T, timeout: Option<Duration>, answer: nat -> Answer)
    returns (r: Outcome<T>, queued: seq<T>, slept: nat, offers: nat)
    ensures r.Sent? ==> queued == [t]
    ensures !r.Sent? ==> queued == [] && r.value == t
    ensures offers >= 1 && FullBefore(answer, offers - 1)
    ensures match answer(offers - 1) case Accepted => r.Sent? case Full => r.StillFull? case Disconnected => r.Gone?
    ensures match timeout
            case Some(d) =>
              var length := d.seconds * 0x1_0000_0000 + d.fraction;          // in units of 2^-32 seconds
              if length * 1_000_000_000 < 1001 * 0x1_0000_0000 then slept == 0
              else
                && (slept + 1000) * 0x1_0000_0000 < 2 * length * 1_000_000_000
                && (r.StillFull? ==> (slept + 1001) * 0x1_0000_0000 > length * 1_000_000_000)
            case None => slept < 39_999_000 && (r.StillFull? ==> 19_999_000 <= slept)
  {
    queued, slept, offers := [], 0, 1;
    if timeout.Some? { NanosAreLength(timeout.value); }
    match answer(0)
    case Accepted => return Sent, [t], slept, offers;
    case Disconnected => return Gone(t), queued, slept, offers;
    case Full =>
    if timeout.Some? { NanosFit(timeout.value); }
    var limit := TimeoutNanos(timeout);
    var timeLeft, delay := limit, EPSILON;
    while timeLeft > EPSILON
      invariant offers >= 1 && FullBefore(answer, offers)
      invariant timeLeft == limit - slept && delay == slept + EPSILON
      invariant slept > 0 ==> limit > EPSILON && delay < 2 * limit
      decreases timeLeft
    {
      offers := offers + 1;
      match answer(offers - 1) {
        case Accepted => return Sent, [t], slept, offers;
        case Disconnected => return Gone(t), queued, slept, offers;
        case Full =>
          slept := slept + delay;
          timeLeft := timeLeft - delay;
          assert -I64_MAX <= timeLeft && 2 * delay <= I64_MAX;
          delay := delay * 2;
      }
    }
    r := StillFull(t);
  }
}
