/** Per-tenant request quotas over one-second counters (src/quota_manager.rs). */
module Quota {
  import opened Wrappers
  import opened Reals

  const TTL := 1.0

  datatype QuotaResult = Allowed | SoftWarning(usagePct: real) | Exceeded

  // A zero limit makes the floating-point quotient infinite.
  function Classify(count: nat, limit: U32): QuotaResult {
    if limit == 0 then Exceeded
    else
      var usagePct := (count as real / limit as real) * 100.0;
      if usagePct > 100.0 then Exceeded else if usagePct >= 80.0 then SoftWarning(usagePct) else Allowed
  }

  /** The verdict on a counter's count, in whole numbers. The full limit is still only a
      warning, although the comment on the result type calls it exceeded. */
  lemma ClassifyMeans(count: nat, limit: U32)
    requires count > 0
    ensures Classify(count, limit) == Exceeded <==> count > limit
    ensures Classify(count, limit).SoftWarning? <==> InWarningBand(count, limit)
    ensures limit > 0 ==> Classify(limit, limit) == SoftWarning(100.0)
    ensures Classify(count, limit).SoftWarning? ==> Classify(count, limit).usagePct * limit as real == 100.0 * count as real
  {
    if limit > 0 {
      var (c, l) := (count as real, limit as real);
      assert (c / l) * l == c;
      assert ((c / l) * 100.0) * l == 100.0 * ((c / l) * l);
      Scaled(c / l, c, l, 1.0);
      Scaled(c / l, c, l, 0.8);
      assert l / l == 1.0;
    }
  }

  lemma Scaled(q: real, c: real, l: real, k: real)
    requires l > 0.0 && q * l == c
    ensures q > k <==> c > k * l
    ensures q >= k <==> c >= k * l
  {
    if q > k {
      ProductStrictOrder(k, q, l);
    } else if q < k {
      ProductStrictOrder(q, k, l);
    } else {
      assert k * l == c;
    }
  }

  // From four fifths of the limit up to the limit itself.
  predicate InWarningBand(count: nat, limit: nat) {
    5 * count >= 4 * limit && count <= limit
  }

  function Capped(count: nat, limit: nat): nat { if count < limit then count else limit }

  predicate Admitted(r: QuotaResult) {
    r != Exceeded
  }

  // ----- any interleaving: threads fetch a counter, and increment it at some later moment

  datatype Counter = Counter(tenant: nat, count: nat)

  datatype Window = Window(counter: nat, openedAt: real)

  // One finished request: its counter, the count it saw, the verdict and the instant.
  datatype Served = Served(counter: nat, count: nat, result: QuotaResult, at: real)

  // live: the cache; held: the counter each request in flight has fetched.
  datatype State = State(counters: seq<Counter>, live: map<nat, Window>, held: map<nat, nat>, log: seq<Served>)

  datatype Step =
    | Fetch(thread: nat, tenant: nat, now: real)
    | Increment(thread: nat, now: real)

  const START := State([], map[], map[], [])

  ghost predicate Enabled(s: State, step: Step) {
    step.Increment? ==> step.thread in s.held && s.held[step.thread] < |s.counters|
  }

  function Apply(s: State, step: Step, limits: nat -> U32): State
    requires Enabled(s, step)
  {
    match step
    case Fetch(thread, tenant, now) =>
      if tenant in s.live && now < s.live[tenant].openedAt + TTL then
        s.(held := s.held[thread := s.live[tenant].counter])
      else
        var id := |s.counters|;
        s.(counters := s.counters + [Counter(tenant, 0)], live := s.live[tenant := Window(id, now)], held := s.held[thread := id])
    case Increment(thread, now) =>
      var id := s.held[thread];
      var c := s.counters[id];
      var count := c.count + 1;
      State(s.counters[id := c.(count := count)], s.live, s.held - {thread},
            s.log + [Served(id, count, Classify(count, limits(c.tenant)), now)])
  }

  function ServedBy(log: seq<Served>, id: nat): nat {
    if log == [] then 0 else ServedBy(log[..|log| - 1], id) + if log[|log| - 1].counter == id then 1 else 0
  }

  function AdmittedBy(log: seq<Served>, id: nat): nat {
    if log == [] then 0
    else AdmittedBy(log[..|log| - 1], id) + if log[|log| - 1].counter == id && Admitted(log[|log| - 1].result) then 1 else 0
  }

  ghost predicate Tallied(log: seq<Served>, id: nat, count: nat, limit: U32) {
    ServedBy(log, id) == count && AdmittedBy(log, id) == Capped(count, limit)
  }

  ghost predicate Judged(e: Served, counters: seq<Counter>, limits: nat -> U32)
    requires e.counter < |counters|
  {
    e.count > 0 && e.result == Classify(e.count, limits(counters[e.counter].tenant))
  }

  // Every counter has counted its requests and admitted the first limit of them.
  ghost predicate Inv(s: State, limits: nat -> U32) {
    && (forall id :: 0 <= id < |s.counters| ==> Tallied(s.log, id, s.counters[id].count, limits(s.counters[id].tenant)))
    && (forall id: nat :: id >= |s.counters| ==> Tallied(s.log, id, 0, 0))
    && (forall i :: 0 <= i < |s.log| ==> s.log[i].counter < |s.counters| && Judged(s.log[i], s.counters, limits))
  }

  ghost predicate IsRun(states: seq<State>, steps: seq<Step>, limits: nat -> U32) {
    && |states| == |steps| + 1 && states[0] == START
    && forall i :: 0 <= i < |steps| ==> Enabled(states[i], steps[i]) && states[i + 1] == Apply(states[i], steps[i], limits)
  }

  lemma LogPush(log: seq<Served>, e: Served, id: nat)
    ensures ServedBy(log + [e], id) == ServedBy(log, id) + if e.counter == id then 1 else 0
    ensures AdmittedBy(log + [e], id) == AdmittedBy(log, id) + if e.counter == id && Admitted(e.result) then 1 else 0
  {
    assert (log + [e])[..|log|] == log;
  }

  lemma StepKeepsInv(s: State, step: Step, limits: nat -> U32)
    requires Inv(s, limits) && Enabled(s, step)
    ensures Inv(Apply(s, step, limits), limits)
  {
    hide Classify, ServedBy, AdmittedBy;
    var t := Apply(s, step, limits);
    if step.Increment? {
      var id := s.held[step.thread];
      var c := s.counters[id];
      var e := t.log[|s.log|];
      ClassifyMeans(c.count + 1, limits(c.tenant));
      forall other: nat
        ensures ServedBy(t.log, other) == ServedBy(s.log, other) + if id == other then 1 else 0
        ensures AdmittedBy(t.log, other) == AdmittedBy(s.log, other) + if id == other && Admitted(e.result) then 1 else 0
      {
        LogPush(s.log, e, other);
      }
      assert Tallied(s.log, id, c.count, limits(c.tenant));
      forall other | 0 <= other < |t.counters|
        ensures Tallied(t.log, other, t.counters[other].count, limits(t.counters[other].tenant))
      {
        assert Tallied(s.log, other, s.counters[other].count, limits(s.counters[other].tenant));
      }
      forall other: nat | other >= |t.counters|
        ensures Tallied(t.log, other, 0, 0)
      {
        assert Tallied(s.log, other, 0, 0);
      }
      forall i | 0 <= i < |t.log|
        ensures t.log[i].counter < |t.counters| && Judged(t.log[i], t.counters, limits)
      {
        if i < |s.log| {
          assert Judged(s.log[i], s.counters, limits);
        }
      }
    } else {
      assert Tallied(s.log, |s.counters|, 0, 0);
      forall i | 0 <= i < |t.log|
        ensures t.log[i].counter < |t.counters| && Judged(t.log[i], t.counters, limits)
      {
        assert Judged(s.log[i], s.counters, limits);
      }
    }
  }

  /** In every interleaving of fetches and increments, at any times, each counter has served
      exactly the requests that incremented it, has admitted exactly the smaller of their
      number and the limit, and has warned exactly on the counts from four fifths of the limit
      up to the limit. */
  lemma {:induction false} EachCounterAdmitsItsLimit(states: seq<State>, steps: seq<Step>, limits: nat -> U32, i: nat, id: nat)
    requires IsRun(states, steps, limits) && i < |states| && id < |states[i].counters|
    ensures var s := states[i];
      && ServedBy(s.log, id) == s.counters[id].count
      && AdmittedBy(s.log, id) == Capped(ServedBy(s.log, id), limits(s.counters[id].tenant))
      && forall j :: 0 <= j < |s.log| && s.log[j].counter == id ==>
           (s.log[j].result.SoftWarning? <==> InWarningBand(s.log[j].count, limits(s.counters[id].tenant)))
  {
    hide Classify, ServedBy, AdmittedBy;
    RunKeepsInv(states, steps, limits, i);
    var s := states[i];
    assert Tallied(s.log, id, s.counters[id].count, limits(s.counters[id].tenant));
    forall j | 0 <= j < |s.log| && s.log[j].counter == id
      ensures s.log[j].result.SoftWarning? <==> InWarningBand(s.log[j].count, limits(s.counters[id].tenant))
    {
      assert Judged(s.log[j], s.counters, limits);
      ClassifyMeans(s.log[j].count, limits(s.counters[id].tenant));
    }
  }

  lemma {:induction false} RunKeepsInv(states: seq<State>, steps: seq<Step>, limits: nat -> U32, i: nat)
    requires IsRun(states, steps, limits) && i < |states|
    ensures Inv(states[i], limits)
  {
    hide Apply, Classify;
    if i == 0 {
    } else {
      RunKeepsInv(states, steps, limits, i - 1);
      StepKeepsInv(states[i - 1], steps[i - 1], limits);
    }
  }

  // ----- one tenant in an interval

  // A request of this tenant that finished in [from, to].
  predicate Concerns(e: Served, counters: seq<Counter>, tenant: nat, from: real, to: real) {
    e.counter < |counters| && counters[e.counter].tenant == tenant && from <= e.at <= to
  }

  function AdmittedDuring(log: seq<Served>, counters: seq<Counter>, tenant: nat, from: real, to: real): nat {
    if log == [] then 0
    else
      var e := log[|log| - 1];
      AdmittedDuring(log[..|log| - 1], counters, tenant, from, to) +
      if Concerns(e, counters, tenant, from, to) && Admitted(e.result) then 1 else 0
  }

  // The counters of this tenant that were incremented in [from, to].
  function Incremented(log: seq<Served>, counters: seq<Counter>, tenant: nat, from: real, to: real): set<nat> {
    set j | 0 <= j < |log| && Concerns(log[j], counters, tenant, from, to) :: log[j].counter
  }

  function AdmittedAmong(log: seq<Served>, ids: set<nat>): nat {
    if log == [] then 0
    else AdmittedAmong(log[..|log| - 1], ids) + if log[|log| - 1].counter in ids && Admitted(log[|log| - 1].result) then 1 else 0
  }

  lemma {:induction false} DuringIsAmong(log: seq<Served>, counters: seq<Counter>, tenant: nat, from: real, to: real, ids: set<nat>)
    requires forall j :: 0 <= j < |log| && Concerns(log[j], counters, tenant, from, to) ==> log[j].counter in ids
    ensures AdmittedDuring(log, counters, tenant, from, to) <= AdmittedAmong(log, ids)
  {
    if log == [] {
    } else {
      DuringIsAmong(log[..|log| - 1], counters, tenant, from, to, ids);
    }
  }

  lemma {:induction false} AmongSplits(log: seq<Served>, ids: set<nat>, id: nat)
    requires id in ids
    ensures AdmittedAmong(log, ids) == AdmittedAmong(log, ids - {id}) + AdmittedBy(log, id)
  {
    if log == [] {
    } else {
      AmongSplits(log[..|log| - 1], ids, id);
    }
  }

  lemma {:induction false} NoneAmongNone(log: seq<Served>)
    ensures AdmittedAmong(log, {}) == 0
  {
    if log == [] {
    } else {
      NoneAmongNone(log[..|log| - 1]);
    }
  }

  lemma {:induction false} AmongIsBounded(log: seq<Served>, ids: set<nat>, limit: nat)
    requires forall id :: id in ids ==> AdmittedBy(log, id) <= limit
    ensures AdmittedAmong(log, ids) <= limit * |ids|
    decreases |ids|
  {
    hide AdmittedAmong, AdmittedBy;
    if ids == {} {
      NoneAmongNone(log);
    } else {
      var id :| id in ids;
      AmongSplits(log, ids, id);
      AmongIsBounded(log, ids - {id}, limit);
      assert |ids| == |ids - {id}| + 1;
      assert limit * |ids| == limit * |ids - {id}| + limit;
    }
  }

  /** In every interleaving, the requests of one tenant admitted in an interval are at most the
      limit times the number of its counters that were incremented in it. */
  lemma AdmittedPerCounter(states: seq<State>, steps: seq<Step>, limits: nat -> U32, i: nat, tenant: nat, from: real, to: real)
    requires IsRun(states, steps, limits) && i < |states|
    ensures var s := states[i];
      AdmittedDuring(s.log, s.counters, tenant, from, to) <= limits(tenant) * |Incremented(s.log, s.counters, tenant, from, to)|
  {
    hide IsRun, Inv, AdmittedDuring, AdmittedAmong, AdmittedBy, ServedBy;
    var s := states[i];
    var ids := Incremented(s.log, s.counters, tenant, from, to);
    RunKeepsInv(states, steps, limits, i);
    forall id | id in ids
      ensures AdmittedBy(s.log, id) <= limits(tenant)
    {
      EachCounterAdmitsItsLimit(states, steps, limits, i, id);
    }
    DuringIsAmong(s.log, s.counters, tenant, from, to, ids);
    AmongIsBounded(s.log, ids, limits(tenant));
  }

  // ----- and that bound is reached, by threads that fetch early and increment late

  ghost predicate Chronological(steps: seq<Step>, now: real) {
    && (forall i, j :: 0 <= i < j < |steps| ==> steps[i].now <= steps[j].now)
    && forall i :: 0 <= i < |steps| ==> steps[i].now <= now
  }

  lemma RunPush(states: seq<State>, steps: seq<Step>, limits: nat -> U32, step: Step, now: real)
    requires IsRun(states, steps, limits) && Chronological(steps, now)
    requires Enabled(states[|steps|], step) && now <= step.now
    ensures IsRun(states + [Apply(states[|steps|], step, limits)], steps + [step], limits)
    ensures Chronological(steps + [step], step.now)
  {
    hide Apply;
  }

  lemma NextQuotient(n: nat, limit: nat)
    requires n > 0 && limit > 0
    ensures n / limit == (n - 1) / limit || n / limit == (n - 1) / limit + 1
  {
    var (q, r) := ((n - 1) / limit, (n - 1) % limit);
    assert n - 1 == q * limit + r;
    if r + 1 < limit {
      QuotientOf(n, limit, q, r + 1);
    } else {
      assert n == (q + 1) * limit;
      QuotientOf(n, limit, q + 1, 0);
    }
  }

  lemma QuotientOf(n: nat, limit: nat, q: nat, r: nat)
    requires limit > 0 && n == q * limit + r && r < limit
    ensures n / limit == q && n % limit == r
  {
    var (p, s) := (n / limit, n % limit);
    assert n == p * limit + s;
    if p < q {
      NatProductOrder(p + 1, q, limit);
    } else if q < p {
      NatProductOrder(q + 1, p, limit);
    }
  }

  lemma NatProductOrder(x: nat, y: nat, c: nat)
    requires x <= y
    ensures x * c <= y * c
  {
    assert (y - x) * c >= 0;
  }

  // After n threads have fetched, limit of them from each counter, a second apart.
  ghost predicate Fetched(s: State, n: nat, limit: nat, tenant: nat)
    requires limit > 0
  {
    && s.log == []
    && |s.counters| == (if n == 0 then 0 else (n - 1) / limit + 1)
    && (forall id :: 0 <= id < |s.counters| ==> s.counters[id] == Counter(tenant, 0))
    && (forall t: nat :: t in s.held <==> t < n)
    && (forall t :: 0 <= t < n ==> t in s.held && s.held[t] == t / limit)
    && (if n == 0 then s.live == map[] else tenant in s.live && s.live[tenant] == Window((n - 1) / limit, ((n - 1) / limit) as real))
  }

  lemma FetchOne(s: State, n: nat, limit: nat, tenant: nat, limits: nat -> U32)
    requires limit > 0 && Fetched(s, n, limit, tenant)
    ensures Fetched(Apply(s, Fetch(n, tenant, (n / limit) as real), limits), n + 1, limit, tenant)
  {
    if n == 0 {
      QuotientOf(0, limit, 0, 0);
    } else {
      NextQuotient(n, limit);
    }
  }

  lemma {:induction false} FetchAll(n: nat, limit: nat, tenant: nat, limits: nat -> U32) returns (states: seq<State>, steps: seq<Step>)
    requires limit > 0
    ensures IsRun(states, steps, limits) && |steps| == n && Fetched(states[n], n, limit, tenant)
    ensures Chronological(steps, if n == 0 then 0.0 else ((n - 1) / limit) as real)
  {
    hide Apply, Fetched, Chronological;
    if n == 0 {
      states, steps := [START], [];
      NothingFetched(limit, tenant);
    } else {
      states, steps := FetchAll(n - 1, limit, tenant, limits);
      FetchOne(states[n - 1], n - 1, limit, tenant, limits);
      var step := Fetch(n - 1, tenant, ((n - 1) / limit) as real);
      if n > 1 {
        NextQuotient(n - 1, limit);
      }
      RunPush(states, steps, limits, step, if n == 1 then 0.0 else ((n - 2) / limit) as real);
      states, steps := states + [Apply(states[n - 1], step, limits)], steps + [step];
    }
  }

  lemma NothingFetched(limit: nat, tenant: nat)
    requires limit > 0
    ensures Fetched(START, 0, limit, tenant) && Chronological([], 0.0)
  {
  }

  // What the first m of the waiting threads add to counter id.
  function Share(m: nat, id: nat, limit: nat): nat {
    if m <= id * limit then 0 else if m >= (id + 1) * limit then limit else m - id * limit
  }

  lemma ShareGrows(m: nat, id: nat, limit: nat)
    requires limit > 0
    ensures Share(m + 1, id, limit) == Share(m, id, limit) + (if m / limit == id then 1 else 0)
    ensures m / limit == id ==> Share(m, id, limit) < limit
    ensures Share(0, id, limit) == 0
  {
    var (q, r) := (m / limit, m % limit);
    assert m == q * limit + r;
    assert (id + 1) * limit == id * limit + limit && (q + 1) * limit == q * limit + limit;
    if q < id {
      NatProductOrder(q + 1, id, limit);
    } else if id < q {
      NatProductOrder(id + 1, q, limit);
    }
  }

  // After the first m of k * limit threads have incremented, all at the same instant.
  ghost predicate Piled(s: State, m: nat, k: nat, limit: nat, tenant: nat)
    requires limit > 0
  {
    && |s.counters| == k
    && (forall id :: 0 <= id < k ==> s.counters[id] == Counter(tenant, Share(m, id, limit)))
    && (forall t :: m <= t < k * limit ==> t in s.held && s.held[t] == t / limit)
    && |s.log| == m
    && forall j :: 0 <= j < m ==> s.log[j].counter < k && Admitted(s.log[j].result) && s.log[j].at == k as real
  }

  lemma FetchedIsPiled(s: State, k: nat, limit: nat, tenant: nat)
    requires limit > 0 && Fetched(s, k * limit, limit, tenant)
    ensures Piled(s, 0, k, limit, tenant)
    ensures k * limit > 0 ==> ((k * limit - 1) / limit) as real <= k as real
  {
    if k > 0 {
      assert k * limit - 1 == (k - 1) * limit + (limit - 1);
      NatProductOrder(1, k, limit);
      QuotientOf(k * limit - 1, limit, k - 1, limit - 1);
    }
    forall id | 0 <= id < k
      ensures Share(0, id, limit) == 0
    {
      ShareGrows(0, id, limit);
    }
  }

  lemma QuotientBelow(m: nat, k: nat, limit: nat)
    requires limit > 0 && m < k * limit
    ensures m / limit < k
  {
    assert m == (m / limit) * limit + m % limit;
    if m / limit >= k {
      NatProductOrder(k, m / limit, limit);
    }
  }

  lemma PileOne(s: State, m: nat, k: nat, tenant: nat, limits: nat -> U32)
    requires limits(tenant) > 0 && Piled(s, m, k, limits(tenant), tenant) && m < k * limits(tenant)
    ensures Enabled(s, Increment(m, k as real))
    ensures Piled(Apply(s, Increment(m, k as real), limits), m + 1, k, limits(tenant), tenant)
  {
    hide Classify, Share;
    var limit := limits(tenant);
    var id := m / limit;
    QuotientBelow(m, k, limit);
    forall other | 0 <= other < k
      ensures Share(m + 1, other, limit) == Share(m, other, limit) + (if id == other then 1 else 0)
    {
      ShareGrows(m, other, limit);
    }
    ShareGrows(m, id, limit);
    ClassifyMeans(Share(m, id, limit) + 1, limit);
  }

  lemma {:induction false} PileUp(m: nat, k: nat, tenant: nat, limits: nat -> U32) returns (states: seq<State>, steps: seq<Step>)
    requires limits(tenant) > 0 && m <= k * limits(tenant)
    ensures IsRun(states, steps, limits) && Chronological(steps, k as real)
    ensures Piled(states[|steps|], m, k, limits(tenant), tenant)
  {
    hide Apply, Fetched, Chronological, Piled;
    var limit := limits(tenant);
    if m == 0 {
      states, steps := FetchAll(k * limit, limit, tenant, limits);
      FetchedIsPiled(states[k * limit], k, limit, tenant);
      LaterClock(steps, if k * limit == 0 then 0.0 else ((k * limit - 1) / limit) as real, k as real);
    } else {
      states, steps := PileUp(m - 1, k, tenant, limits);
      PileOne(states[|steps|], m - 1, k, tenant, limits);
      var step := Increment(m - 1, k as real);
      RunPush(states, steps, limits, step, k as real);
      states, steps := states + [Apply(states[|steps|], step, limits)], steps + [step];
    }
  }

  lemma LaterClock(steps: seq<Step>, now: real, later: real)
    requires Chronological(steps, now) && now <= later
    ensures Chronological(steps, later)
  {
  }

  lemma {:induction false} AllAdmitted(log: seq<Served>, counters: seq<Counter>, tenant: nat, at: real)
    requires forall j :: 0 <= j < |log| ==> Concerns(log[j], counters, tenant, at, at) && Admitted(log[j].result)
    ensures AdmittedDuring(log, counters, tenant, at, at) == |log|
  {
    if log == [] {
    } else {
      AllAdmitted(log[..|log| - 1], counters, tenant, at);
    }
  }

  // A chronological run with k counters of one tenant admits k times its limit at one instant.
  ghost predicate PilesUp(states: seq<State>, steps: seq<Step>, limits: nat -> U32, tenant: nat, k: nat) {
    && IsRun(states, steps, limits) && Chronological(steps, k as real)
    && var s := states[|steps|];
    && |s.counters| == k
    && AdmittedDuring(s.log, s.counters, tenant, k as real, k as real) == k * limits(tenant)
  }

  /** The counters outlive their second in the hands of slow threads, so that bound is reached:
      for every positive limit and every number k of counters, some run on a nondecreasing
      clock admits k times the limit at one instant. */
  lemma SlowThreadsPileUp(limits: nat -> U32, tenant: nat, k: nat)
    requires limits(tenant) > 0
    ensures exists states, steps :: PilesUp(states, steps, limits, tenant, k)
  {
    hide Apply, Chronological, AdmittedDuring;
    var states, steps := PileUp(k * limits(tenant), k, tenant, limits);
    var s := states[|steps|];
    AllAdmitted(s.log, s.counters, tenant, k as real);
    assert PilesUp(states, steps, limits, tenant, k);
  }

  // ----- one request at a time

  // The current window of one tenant: when it opened and how many requests it has counted.
  datatype Span = Closed | Open(openedAt: real, count: nat)

  function Next(w: Span, now: real): Span {
    if w.Open? && now < w.openedAt + TTL then Open(w.openedAt, w.count + 1) else Open(now, 1)
  }

  // The window after a run of requests at the given times.
  function SpanOf(times: seq<real>): Span {
    if times == [] then Closed else Next(SpanOf(times[..|times| - 1]), times[|times| - 1])
  }

  function ResultAt(times: seq<real>, limit: U32): QuotaResult
    requires times != []
  {
    Classify(SpanOf(times).count, limit)
  }

  // How many requests of the run fell in [from, to] and were admitted.
  function AdmittedIn(times: seq<real>, limit: U32, from: real, to: real): nat {
    if times == [] then 0
    else
      AdmittedIn(times[..|times| - 1], limit, from, to) +
      if from <= times[|times| - 1] <= to && Admitted(ResultAt(times, limit)) then 1 else 0
  }

  ghost predicate Nondecreasing(times: seq<real>) {
    forall i, j :: 0 <= i < j < |times| ==> times[i] <= times[j]
  }

  function OneLess(x: nat): nat { if x == 0 then 0 else x - 1 }

  // What the current window allows the count to be.
  ghost predicate Bounded(n: nat, w: Span, limit: U32, from: real, to: real) {
    match w
    case Closed => n == 0
    case Open(openedAt, count) =>
      && count > 0
      && (openedAt < from ==> n <= OneLess(Capped(count, limit)))
      && (from <= openedAt <= to ==> n <= OneLess(limit) + Capped(count, limit))
      && n <= OneLess(limit) + limit
  }

  lemma {:induction false} SpanShape(times: seq<real>)
    requires Nondecreasing(times)
    ensures times != [] ==> SpanOf(times).Open? && SpanOf(times).count > 0 && SpanOf(times).openedAt <= times[|times| - 1]
  {
    if times == [] {
    } else {
      SpanShape(times[..|times| - 1]);
    }
  }

  lemma {:induction false} NothingBefore(times: seq<real>, limit: U32, from: real, to: real)
    requires forall i :: 0 <= i < |times| ==> times[i] < from
    ensures AdmittedIn(times, limit, from, to) == 0
  {
    if times == [] {
    } else {
      NothingBefore(times[..|times| - 1], limit, from, to);
    }
  }

  lemma {:induction false} CountIsBounded(times: seq<real>, limit: U32, from: real, to: real)
    requires Nondecreasing(times) && from <= to < from + TTL
    ensures Bounded(AdmittedIn(times, limit, from, to), SpanOf(times), limit, from, to)
  {
    hide Classify;
    if times == [] {
    } else {
      var (init, t) := (times[..|times| - 1], times[|times| - 1]);
      CountIsBounded(init, limit, from, to);
      SpanShape(init);
      SpanShape(times);
      ClassifyMeans(SpanOf(times).count, limit);
      if t < from {
        NothingBefore(times, limit, from, to);
      }
    }
  }

  /** With requests one at a time on a nondecreasing clock, windows anchored at their first
      request and rejected requests still counted, any interval shorter than a second admits
      fewer than twice the limit. */
  lemma ShortIntervalsAdmitLessThanTwice(times: seq<real>, limit: U32, from: real, to: real)
    requires Nondecreasing(times) && from <= to < from + 1.0
    ensures AdmittedIn(times, limit, from, to) <= if limit == 0 then 0 else 2 * limit - 1
  {
    CountIsBounded(times, limit, from, to);
  }

  // n requests at one instant.
  function Burst(n: nat, t: real): seq<real> {
    seq(n, _ => t)
  }

  lemma {:induction false} BurstInWindow(times: seq<real>, n: nat, t: real, limit: U32, from: real, to: real)
    requires SpanOf(times).Open? && SpanOf(times).openedAt <= t < SpanOf(times).openedAt + TTL
    requires from <= t <= to && SpanOf(times).count + n <= limit
    ensures SpanOf(times + Burst(n, t)) == Open(SpanOf(times).openedAt, SpanOf(times).count + n)
    ensures AdmittedIn(times + Burst(n, t), limit, from, to) == AdmittedIn(times, limit, from, to) + n
  {
    hide Classify;
    if n == 0 {
      assert times + Burst(0, t) == times;
    } else {
      BurstInWindow(times, n - 1, t, limit, from, to);
      assert (times + Burst(n, t))[..|times| + n - 1] == times + Burst(n - 1, t);
      ClassifyMeans(SpanOf(times).count + n, limit);
    }
  }

  /** That bound is reached for every positive limit. */
  lemma TheBoundIsTight(limit: U32)
    requires limit > 0
    ensures exists times :: Nondecreasing(times) && AdmittedIn(times, limit, 0.9, 1.0) == 2 * limit - 1
  {
    hide Classify, Burst, SpanOf, AdmittedIn;
    var opening := [0.0];
    RequestPush([], 0.0, limit, 0.9, 1.0);
    assert [] + [0.0] == opening;
    var late := opening + Burst(limit - 1, 0.9);
    BurstInWindow(opening, limit - 1, 0.9, limit, 0.9, 1.0);
    var reopened := late + [1.0];
    RequestPush(late, 1.0, limit, 0.9, 1.0);
    ClassifyMeans(1, limit);
    var times := reopened + Burst(limit - 1, 1.0);
    BurstInWindow(reopened, limit - 1, 1.0, limit, 0.9, 1.0);
    InOrder(limit - 1);
    assert AdmittedIn(times, limit, 0.9, 1.0) == 2 * limit - 1;
  }

  lemma RequestPush(times: seq<real>, t: real, limit: U32, from: real, to: real)
    ensures SpanOf(times + [t]) == Next(SpanOf(times), t)
    ensures AdmittedIn(times + [t], limit, from, to) ==
            AdmittedIn(times, limit, from, to) + if from <= t <= to && Admitted(Classify(SpanOf(times + [t]).count, limit)) then 1 else 0
    ensures SpanOf([]) == Closed && AdmittedIn([], limit, from, to) == 0
  {
    hide Classify;
    assert (times + [t])[..|times|] == times;
  }

  lemma InOrder(n: nat)
    ensures Nondecreasing([0.0] + Burst(n, 0.9) + [1.0] + Burst(n, 1.0))
  {
  }

  // ----- the interleaved machine, used by one request at a time

  datatype Request = Request(tenant: nat, at: real)

  // Each request fetches its counter and increments it before the next one comes.
  ghost function Sequentially(requests: seq<Request>, limits: nat -> U32): State {
    if requests == [] then START
    else
      var (s, r, thread) := (Sequentially(requests[..|requests| - 1], limits), requests[|requests| - 1], |requests|);
      var t := Apply(s, Fetch(thread, r.tenant, r.at), limits);
      if Enabled(t, Increment(thread, r.at)) then Apply(t, Increment(thread, r.at), limits) else t
  }

  // When one tenant's requests came.
  function TimesOf(requests: seq<Request>, tenant: nat): seq<real> {
    if requests == [] then []
    else
      var r := requests[|requests| - 1];
      TimesOf(requests[..|requests| - 1], tenant) + if r.tenant == tenant then [r.at] else []
  }

  // The live counter of the tenant, if it has one, is its current window.
  ghost predicate InWindow(s: State, tenant: nat, w: Span) {
    match w
    case Closed => tenant !in s.live
    case Open(openedAt, count) =>
      && tenant in s.live && s.live[tenant].openedAt == openedAt && s.live[tenant].counter < |s.counters|
      && s.counters[s.live[tenant].counter] == Counter(tenant, count)
  }

  lemma OneRequest(s: State, thread: nat, r: Request, w: Span, limits: nat -> U32)
    requires InWindow(s, r.tenant, w)
    ensures var t := Apply(s, Fetch(thread, r.tenant, r.at), limits);
      && Enabled(t, Increment(thread, r.at))
      && var u := Apply(t, Increment(thread, r.at), limits);
      && InWindow(u, r.tenant, Next(w, r.at)) && |u.log| == |s.log| + 1
      && u.log[|s.log|].result == Classify(Next(w, r.at).count, limits(r.tenant))
  {
    hide Classify;
  }

  lemma OtherTenant(s: State, thread: nat, r: Request, w: Span, other: nat, v: Span, limits: nat -> U32)
    requires InWindow(s, r.tenant, w) && InWindow(s, other, v) && other != r.tenant
    ensures var t := Apply(s, Fetch(thread, r.tenant, r.at), limits);
      Enabled(t, Increment(thread, r.at)) ==> InWindow(Apply(t, Increment(thread, r.at), limits), other, v)
  {
    hide Classify;
  }

  /** Used by one request at a time, the interleaved machine is the plain window: after any
      requests of any tenants, each tenant's live counter is the window of its own request
      times, and the last verdict is the one for them. */
  lemma {:induction false} OneAtATimeIsTheWindow(requests: seq<Request>, limits: nat -> U32, tenant: nat)
    ensures InWindow(Sequentially(requests, limits), tenant, SpanOf(TimesOf(requests, tenant)))
    ensures |Sequentially(requests, limits).log| == |requests|
    ensures requests != [] ==>
      var last := requests[|requests| - 1];
      && TimesOf(requests, last.tenant) != []
      && Sequentially(requests, limits).log[|requests| - 1].result == ResultAt(TimesOf(requests, last.tenant), limits(last.tenant))
  {
    hide Apply, Classify, InWindow, Enabled, SpanOf, TimesOf, Sequentially;
    if requests == [] {
      NothingOpen(tenant, limits);
    } else {
      var (n, r) := (|requests| - 1, requests[|requests| - 1]);
      var (init, thread) := (requests[..n], |requests|);
      var s := Sequentially(init, limits);
      OneAtATimeIsTheWindow(init, limits, tenant);
      OneAtATimeIsTheWindow(init, limits, r.tenant);
      var w := SpanOf(TimesOf(init, r.tenant));
      assert requests == init + [r];
      OneRequest(s, thread, r, w, limits);
      SequentiallyPush(init, r, limits);
      TimesPush(init, r, r.tenant);
      TimesPush(init, r, tenant);
      if tenant != r.tenant {
        OtherTenant(s, thread, r, w, tenant, SpanOf(TimesOf(init, tenant)), limits);
      }
    }
  }

  lemma NothingOpen(tenant: nat, limits: nat -> U32)
    ensures InWindow(Sequentially([], limits), tenant, SpanOf(TimesOf([], tenant)))
    ensures Sequentially([], limits).log == []
  {
  }

  lemma SequentiallyPush(requests: seq<Request>, r: Request, limits: nat -> U32)
    ensures var (s, thread) := (Sequentially(requests, limits), |requests| + 1);
      var t := Apply(s, Fetch(thread, r.tenant, r.at), limits);
      Enabled(t, Increment(thread, r.at)) ==> Sequentially(requests + [r], limits) == Apply(t, Increment(thread, r.at), limits)
  {
    hide Apply;
    assert (requests + [r])[..|requests|] == requests;
  }

  lemma TimesPush(requests: seq<Request>, r: Request, tenant: nat)
    ensures TimesOf(requests + [r], tenant) == if r.tenant == tenant then TimesOf(requests, tenant) + [r.at] else TimesOf(requests, tenant)
    ensures SpanOf(TimesOf(requests, tenant) + [r.at]) == Next(SpanOf(TimesOf(requests, tenant)), r.at)
    ensures TimesOf(requests + [r], r.tenant) != []
  {
    assert (requests + [r])[..|requests|] == requests;
    var times := TimesOf(requests, tenant);
    assert (times + [r.at])[..|times|] == times;
  }

  // ----- the object

  class QuotaManager {
    var counters: map<nat, Span>
    // Every request of every tenant so far.
    ghost var requests: map<nat, seq<real>>

    ghost predicate Valid()
      reads this
    {
      && counters.Keys == requests.Keys
      && forall k :: k in counters ==> counters[k] == SpanOf(requests[k])
    }

    constructor ()
      ensures Valid() && requests == map[]
    {
      counters, requests := map[], map[];
    }

    method CheckAndIncrement(tenant: nat, rateLimit: U32, now: real) returns (result: QuotaResult)
      requires Valid()
      modifies this
      ensures Valid()
      ensures requests == old(requests)[tenant := (if tenant in old(requests) then old(requests)[tenant] else []) + [now]]
      ensures result == ResultAt(requests[tenant], rateLimit)
    {
      hide Classify;
      ghost var past := if tenant in requests then requests[tenant] else [];
      assert (past + [now])[..|past|] == past;
      var span := if tenant in counters then counters[tenant] else Closed;
      var current := if span.Open? && now < span.openedAt + TTL then span else Open(now, 0);
      var currentCount := current.count + 1;
      assert SpanOf(past + [now]) == Next(SpanOf(past), now) == current.(count := currentCount);
      counters := counters[tenant := current.(count := currentCount)];
      requests := requests[tenant := past + [now]];
      return Classify(currentCount, rateLimit);
    }
  }
}
