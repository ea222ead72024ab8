/** The sliding-window limiter over a sorted set per key
    (nostream-share/src/utils/sliding-window-rate-limiter.ts). Times are in
    milliseconds. */
module RateLimiter {
  import opened Wrappers

  /** A member `time:step`, scored by its time. */
  datatype Entry = Entry(time: nat, step: nat)

  /** Members in the order of their scores, the newest outermost; also the
      whole history of a key. */
  datatype Hits = NoHits | Then(before: Hits, hit: Entry)

  /** The sorted set under one key and when the key expires. */
  datatype Bucket = Bucket(entries: Hits, expiresAt: int)

  const EMPTY := Bucket(NoHits, 0)

  /** The members scored above a time. */
  function Since(h: Hits, after: int): Hits {
    match h
    case NoHits => NoHits
    case Then(before, hit) => if hit.time > after then Then(Since(before, after), hit) else Since(before, after)
  }

  function Sum(h: Hits): nat {
    match h
    case NoHits => 0
    case Then(before, hit) => Sum(before) + hit.step
  }

  predicate Has(h: Hits, x: Entry) {
    match h
    case NoHits => false
    case Then(before, hit) => hit == x || Has(before, x)
  }

  /** What is left of a key when a hit arrives: nothing once it has expired,
      else what is younger than the period. */
  function Live(b: Bucket, now: nat, period: nat): Hits {
    if b.expiresAt <= now then NoHits else Since(b.entries, now - period)
  }

  /** A sorted set keeps a member once. */
  function Added(h: Hits, hit: Entry): Hits {
    if Has(h, hit) then h else Then(h, hit)
  }

  /** Remove what is too old, add the hit, count, and renew the expiry, which
      takes the period for seconds. */
  function AfterHit(b: Bucket, hit: Entry, period: nat): Bucket {
    Bucket(Added(Live(b, hit.time, period), hit), hit.time + 1000 * period)
  }

  predicate Limited(b: Bucket, hit: Entry, period: nat, rate: nat) {
    Sum(Added(Live(b, hit.time, period), hit)) > rate
  }

  class SlidingWindowRateLimiter {
    var buckets: map<string, Bucket>

    constructor ()
      ensures buckets == map[]
    {
      buckets := map[];
    }

    method Hit(key: string, step: nat, period: nat, rate: nat, now: nat) returns (limited: bool)
      modifies this
      ensures var b := if key in old(buckets) then old(buckets)[key] else EMPTY;
        buckets == old(buckets)[key := AfterHit(b, Entry(now, step), period)]
        && limited == Limited(b, Entry(now, step), period, rate)
      ensures buckets[key].expiresAt == now + 1000 * period
    {
      var b := if key in buckets then buckets[key] else EMPTY;
      var entries := Added(Live(b, now, period), Entry(now, step));
      buckets := buckets[key := Bucket(entries, now + 1000 * period)];
      var hits, rest := 0, entries;
      while rest.Then?
        invariant hits + Sum(rest) == Sum(entries)
        decreases rest
      {
        hits := hits + rest.hit.step;
        rest := rest.before;
      }
      limited := hits > rate;
    }
  }

  // ---- histories of one key ----

  function BucketAfter(h: Hits, period: nat): Bucket {
    match h
    case NoHits => EMPTY
    case Then(before, hit) => AfterHit(BucketAfter(before, period), hit, period)
  }

  /** The limiter's answer to a hit after others. */
  predicate Refused(before: Hits, hit: Entry, period: nat, rate: nat) {
    Limited(BucketAfter(before, period), hit, period, rate)
  }

  /** The answer of a limiter that forgets nothing: a hit is refused when it
      and all hits of the last period exceed the rate. */
  predicate Exceeds(before: Hits, hit: Entry, period: nat, rate: nat) {
    Sum(Since(before, hit.time - period)) + hit.step > rate
  }

  /** Every answer is the one that counting everything gives. */
  predicate AnswersCount(h: Hits, period: nat, rate: nat) {
    match h
    case NoHits => true
    case Then(before, hit) =>
      AnswersCount(before, period, rate) && (Refused(before, hit, period, rate) <==> Exceeds(before, hit, period, rate))
  }

  predicate NotAfter(h: Hits, now: int) {
    match h
    case NoHits => true
    case Then(before, hit) => hit.time <= now && NotAfter(before, now)
  }

  /** The clock does not go back. */
  predicate Monotone(h: Hits) {
    match h
    case NoHits => true
    case Then(before, hit) => Monotone(before) && NotAfter(before, hit.time)
  }

  /** No two hits share both millisecond and step, and so a member. */
  predicate Distinct(h: Hits) {
    match h
    case NoHits => true
    case Then(before, hit) => Distinct(before) && !Has(before, hit)
  }

  /** The members of a history: each in the place of its first hit. */
  function Unique(h: Hits): Hits {
    match h
    case NoHits => NoHits
    case Then(before, hit) => Added(Unique(before), hit)
  }

  lemma {:induction false} UniqueHas(h: Hits, x: Entry)
    ensures Has(Unique(h), x) <==> Has(h, x)
  {
    if h.Then? { UniqueHas(h.before, x); }
  }

  lemma {:induction false} UniqueNotAfter(h: Hits, now: int)
    requires NotAfter(h, now)
    ensures NotAfter(Unique(h), now)
  {
    if h.Then? { UniqueNotAfter(h.before, now); }
  }

  lemma {:induction false} DistinctIsUnique(h: Hits)
    requires Distinct(h)
    ensures Unique(h) == h
  {
    if h.Then? { DistinctIsUnique(h.before); }
  }

  predicate Positive(h: Hits) {
    match h
    case NoHits => true
    case Then(before, hit) => Positive(before) && hit.step > 0
  }

  lemma {:induction false} SinceSince(h: Hits, after: int, later: int)
    requires after <= later
    ensures Since(Since(h, after), later) == Since(h, later)
  {
    if h.Then? { SinceSince(h.before, after, later); }
  }

  lemma {:induction false} NoneSince(h: Hits, after: int)
    requires NotAfter(h, after)
    ensures Since(h, after) == NoHits
  {
    if h.Then? { NoneSince(h.before, after); }
  }

  lemma {:induction false} NotAfterLater(h: Hits, now: int, later: int)
    requires NotAfter(h, now) && now <= later
    ensures NotAfter(h, later)
  {
    if h.Then? { NotAfterLater(h.before, now, later); }
  }

  lemma {:induction false} HasSince(h: Hits, x: Entry, after: int)
    ensures Has(Since(h, after), x) <==> Has(h, x) && x.time > after
  {
    if h.Then? { HasSince(h.before, x, after); }
  }

  /** Past the expiry nothing counts any more. */
  lemma ExpiredIsStale(h: Hits, now: nat, period: nat)
    requires h.Then? && Monotone(h) && h.hit.time + 1000 * period <= now
    ensures Since(Unique(h), now - period) == NoHits
  {
    NotAfterLater(h.before, h.hit.time, now - period);
    UniqueNotAfter(h, now - period);
    NoneSince(Unique(h), now - period);
  }

  /** What the cache holds for the next hit is the recent part of the members of
      the whole history; neither removal nor expiry ever loses a member that
      still counts. */
  lemma {:induction false} LiveIsRecent(h: Hits, now: nat, period: nat)
    requires Monotone(h) && NotAfter(h, now)
    ensures Live(BucketAfter(h, period), now, period) == Since(Unique(h), now - period)
  {
    if h.Then? {
      LiveIsRecent(h.before, h.hit.time, period);
      HasSince(Unique(h.before), h.hit, h.hit.time - period);
      if h.hit.time + 1000 * period <= now {
        ExpiredIsStale(h, now, period);
      } else {
        assert BucketAfter(h, period).entries == Since(Unique(h), h.hit.time - period);
        SinceSince(Unique(h), h.hit.time - period, now - period);
      }
    }
  }

  /** The limiter counts every member of the last period once: the present hit
      adds nothing when the same member is in the set already. */
  lemma AnswerStep(before: Hits, hit: Entry, period: nat, rate: nat)
    requires Monotone(before) && NotAfter(before, hit.time)
    ensures Refused(before, hit, period, rate) <==>
            Sum(Since(Unique(before), hit.time - period)) + (if Has(before, hit) && period > 0 then 0 else hit.step)
            > rate
  {
    LiveIsRecent(before, hit.time, period);
    HasSince(Unique(before), hit, hit.time - period);
    UniqueHas(before, hit);
  }

  /** Each answer compares the rate with all steps of the last period,
      including the present one: forgetting old hits and letting the key expire
      never changes an answer. */
  lemma {:induction false} AnswersAreCounts(h: Hits, period: nat, rate: nat)
    requires Monotone(h) && Distinct(h)
    ensures AnswersCount(h, period, rate)
  {
    if h.Then? {
      AnswersAreCounts(h.before, period, rate);
      AnswerStep(h.before, h.hit, period, rate);
      DistinctIsUnique(h.before);
    }
  }

  lemma {:induction false} NoPeriodCounts(h: Hits, rate: nat)
    requires Monotone(h)
    ensures AnswersCount(h, 0, rate)
  {
    if h.Then? {
      NoPeriodCounts(h.before, rate);
      NoneSince(h.before, h.hit.time);
      assert Live(BucketAfter(h.before, 0), h.hit.time, 0) == NoHits;
    }
  }

  /** A repeated member is not counted: at the rate reached before it, it is
      let through although it exceeds the rate. */
  lemma {:induction false} RepeatNotCounted(h: Hits, period: nat) returns (rate: nat)
    requires Monotone(h) && Positive(h) && !Distinct(h) && period > 0
    ensures !AnswersCount(h, period, rate)
  {
    if !Distinct(h.before) {
      rate := RepeatNotCounted(h.before, period);
    } else {
      rate := Sum(Since(h.before, h.hit.time - period));
      AnswerStep(h.before, h.hit, period, rate);
      DistinctIsUnique(h.before);
    }
  }

  /** The limiter counts like one that forgets nothing, at every rate, exactly
      when no two hits share millisecond and step. */
  lemma CountsUnlessRepeated(h: Hits, period: nat)
    requires Monotone(h) && Positive(h)
    ensures (forall rate: nat :: AnswersCount(h, period, rate)) <==> period == 0 || Distinct(h)
  {
    if period == 0 {
      forall rate: nat ensures AnswersCount(h, period, rate) { NoPeriodCounts(h, rate); }
    } else if Distinct(h) {
      forall rate: nat ensures AnswersCount(h, period, rate) { AnswersAreCounts(h, period, rate); }
    } else {
      var rate := RepeatNotCounted(h, period);
    }
  }

  // ---- the rate ----

  /** The admitted steps in the window that starts after `start` and is one
      period long. */
  function AdmittedIn(h: Hits, period: nat, rate: nat, start: int): nat {
    match h
    case NoHits => 0
    case Then(before, hit) =>
      AdmittedIn(before, period, rate, start)
      + if start < hit.time <= start + period && !Refused(before, hit, period, rate) then hit.step else 0
  }

  /** The part of them that repeats a member: it adds nothing to the count. */
  function RepeatedIn(h: Hits, period: nat, rate: nat, start: int): nat {
    match h
    case NoHits => 0
    case Then(before, hit) =>
      RepeatedIn(before, period, rate, start)
      + if start < hit.time <= start + period && Has(before, hit) && !Refused(before, hit, period, rate) then hit.step
        else 0
  }

  lemma {:induction false} AdmittedWithin(h: Hits, period: nat, rate: nat, start: int, after: int)
    requires after <= start
    ensures AdmittedIn(h, period, rate, start) <= Sum(Since(Unique(h), after)) + RepeatedIn(h, period, rate, start)
  {
    if h.Then? {
      AdmittedWithin(h.before, period, rate, start, after);
      UniqueHas(h.before, h.hit);
    }
  }

  lemma {:induction false} NoneRepeated(h: Hits, period: nat, rate: nat, start: int)
    requires Distinct(h)
    ensures RepeatedIn(h, period, rate, start) == 0
  {
    if h.Then? { NoneRepeated(h.before, period, rate, start); }
  }

  /** Over any history of one key under a clock that does not go back, the steps
      admitted in any window of one period sum to at most the rate, apart from
      those of hits that repeat a member; without such hits, to at most the
      rate. */
  lemma {:induction false} RateBound(h: Hits, period: nat, rate: nat, start: int)
    requires Monotone(h)
    ensures AdmittedIn(h, period, rate, start) <= rate + RepeatedIn(h, period, rate, start)
    ensures Distinct(h) ==> AdmittedIn(h, period, rate, start) <= rate
  {
    if h.Then? {
      RateBound(h.before, period, rate, start);
      AnswerStep(h.before, h.hit, period, rate);
      if h.hit.time <= start + period {
        AdmittedWithin(h.before, period, rate, start, h.hit.time - period);
      }
    }
    if Distinct(h) { NoneRepeated(h, period, rate, start); }
  }

  /** Two hits of one step in one millisecond are one member, and together they
      pass the rate. */
  lemma SameMillisecondAdmitted(time: nat, period: nat, rate: nat)
    requires period > 0 && rate > 0
    ensures var h := Then(Then(NoHits, Entry(time, rate)), Entry(time, rate));
      Monotone(h) && AdmittedIn(h, period, rate, time - 1) == 2 * rate
  {
    var hit := Entry(time, rate);
    AnswerStep(NoHits, hit, period, rate);
    AnswerStep(Then(NoHits, hit), hit, period, rate);
    assert Since(Then(NoHits, hit), time - period) == Then(NoHits, hit);
    assert AdmittedIn(NoHits, period, rate, time - 1) == 0;
    assert AdmittedIn(Then(NoHits, hit), period, rate, time - 1) == rate;
  }

  /** The window is half open: two hits one period apart are both admitted,
      each of them as large as the rate. */
  lemma PeriodApartAdmitted(period: nat, rate: nat)
    requires period > 0
    ensures !Refused(NoHits, Entry(0, rate), period, rate)
    ensures !Refused(Then(NoHits, Entry(0, rate)), Entry(period, rate), period, rate)
  {
    AnswerStep(NoHits, Entry(0, rate), period, rate);
    AnswerStep(Then(NoHits, Entry(0, rate)), Entry(period, rate), period, rate);
  }
}
