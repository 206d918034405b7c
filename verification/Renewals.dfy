/** Renewal retry gates: back-off, due certificates, manual clearing, and the scan
    protocol over time. Times are in seconds. */
module Renewals {
  import opened Text
  import opened AcmeRecords
  import opened CertTables
  import opened CertStore

  const U32_MAX: nat := 0xFFFF_FFFF
  const HOUR: nat := 3600
  const DAY: nat := 86400
  const CA_LIMIT: nat := 48 * HOUR

  // ---------------------------------------------------------------- back-off

  function Pow2(n: nat): nat { if n == 0 then 1 else 2 * Pow2(n - 1) }

  function Exponent(failures: nat): nat {
    var n := if failures == 0 then 0 else failures - 1;
    if n < 8 then n else 8
  }

  /** Five minutes doubling per failure, capped at twelve hours. */
  function BaseSeconds(failures: nat): nat {
    var minutes := 5 * Pow2(Exponent(failures));
    (if minutes < 12 * 60 then minutes else 12 * 60) * 60
  }

  /** The jitters `failure_backoff` may draw: a fifth of the base either way. */
  predicate Jitter(failures: nat, jitter: int) {
    -((BaseSeconds(failures) / 5) as int) <= jitter <= BaseSeconds(failures) / 5
  }

  function Backoff(failures: nat, jitter: int): int { BaseSeconds(failures) + jitter }

  lemma Pow2Grows(m: nat, n: nat)
    requires m <= n
    ensures 1 <= Pow2(m) <= Pow2(n)
    decreases n
  {
    if m < n { Pow2Grows(m, n - 1); }
    if m == n && n > 0 { Pow2Grows(m - 1, n - 1); }
  }

  /** The base never decreases with more failures. */
  lemma BaseGrows(m: nat, n: nat)
    requires m <= n
    ensures BaseSeconds(m) <= BaseSeconds(n)
  {
    Pow2Grows(Exponent(m), Exponent(n));
  }

  /** The jitter is at most a fifth of the base either way. */
  lemma JitterIff(failures: nat, jitter: int)
    ensures Jitter(failures, jitter) <==> -(BaseSeconds(failures) as int) <= 5 * jitter <= BaseSeconds(failures)
  {
    hide BaseSeconds;
  }

  lemma BackoffBounds(failures: nat, jitter: int)
    requires Jitter(failures, jitter)
    ensures 240 <= Backoff(failures, jitter) <= 51840
  {
    Pow2Grows(0, Exponent(failures));
    var minutes := if 5 * Pow2(Exponent(failures)) < 720 then 5 * Pow2(Exponent(failures)) else 720;
    assert 5 <= minutes <= 720;
    assert BaseSeconds(failures) == minutes * 60 && BaseSeconds(failures) / 5 == minutes * 12;
  }

  // ---------------------------------------------------------------- what the operations store

  function NewState(id: string): Renewal {
    Renewal(id, None, None, None, None, 0, None, None, None)
  }

  function Previous(renewals: map<string, Renewal>, id: string): Renewal {
    if id in renewals then renewals[id] else NewState(id)
  }

  /** A CA deadline counts if it lies ahead, and no further than 48 hours. */
  function CaGate(deadline: Option<Time>, now: Time): Option<Time> {
    match deadline
    case Some(d) => if d > now then Some(if d < now + CA_LIMIT then d else now + CA_LIMIT) else None
    case None => None
  }

  /** `record_failure`: the error text yields an optional CA deadline. */
  function Failed(previous: Option<Renewal>, id: string, now: Time, deadline: Option<Time>, jitter: int): Renewal {
    var failures := match previous case Some(p) => (if p.failures < U32_MAX then p.failures + 1 else U32_MAX) case None => 1;
    var ca := CaGate(deadline, now);
    var next := match ca case Some(d) => d case None => now + Backoff(failures, jitter);
    var p := match previous case Some(p) => p case None => NewState(id);
    Renewal(id, Some(now), p.lastSuccess, Some(next), ca, failures, p.ariSuggestedAt, p.ariCheckedAt, p.ariNextCheck)
  }

  /** The state a successful renewal stores. */
  function Renewed(id: string, now: Time, suggested: Option<Time>, nextCheck: Option<Time>): Renewal {
    Renewal(id, Some(now), Some(now), None, None, 0, suggested, Some(now), nextCheck)
  }

  /** What an ARI refresh stores over the state it read: only its own fields change. */
  function Refreshed(previous: Renewal, now: Time, ari: Option<(Time, nat)>): Renewal {
    match ari
    case Some((suggested, retry)) =>
      previous.(ariSuggestedAt := Some(suggested), ariCheckedAt := Some(now), ariNextCheck := Some(now + retry))
    case None => previous.(ariCheckedAt := Some(now), ariNextCheck := Some(now + 7 * DAY))
  }

  predicate CaLive(r: Renewal, now: Time) { r.caRetryAfter.Some? && r.caRetryAfter.value > now }

  predicate Clears(r: Renewal, now: Time) { !CaLive(r, now) && r.nextAttempt.Some? }

  /** The states `clear_renewal_retry_gates` writes back. */
  function ClearedStates(renewals: map<string, Renewal>, now: Time): map<string, Renewal> {
    map id | id in renewals && Clears(renewals[id], now) :: renewals[id].(nextAttempt := None, caRetryAfter := None)
  }

  predicate GateOpen(r: Renewal, now: Time) { r.nextAttempt.None? || r.nextAttempt.value <= now }

  /** When the CA lets the client come back: at its deadline if that lies ahead, at most 48
      hours from now. */
  ghost predicate CaSays(deadline: Option<Time>, now: Time, gate: Option<Time>) {
    if deadline.Some? && deadline.value > now
    then gate == Some(if deadline.value < now + 172_800 then deadline.value else now + 172_800)
    else gate == None
  }

  /** After every failure the gate lies strictly ahead, at most 48 hours. It is the CA's
      deadline when there is a live one, and else a fifth around the back-off base; failures
      are counted, and what earlier attempts left is kept. */
  lemma FailureGate(previous: Option<Renewal>, id: string, now: Time, deadline: Option<Time>, jitter: int)
    requires Jitter(Failed(previous, id, now, deadline, jitter).failures, jitter)
    ensures var r := Failed(previous, id, now, deadline, jitter);
            && r.nextAttempt.Some? && now < r.nextAttempt.value <= now + 172_800
            && CaSays(deadline, now, r.caRetryAfter)
            && (CaLive(r, now) <==> deadline.Some? && deadline.value > now)
            && (r.caRetryAfter.Some? ==> r.nextAttempt == r.caRetryAfter)
            && (r.caRetryAfter.None? ==>
                  4 * BaseSeconds(r.failures) <= 5 * (r.nextAttempt.value - now) <= 6 * BaseSeconds(r.failures))
    ensures var r := Failed(previous, id, now, deadline, jitter);
            && r.certificateId == id && r.lastAttempt == Some(now)
            && r.failures == (if previous.None? then 1 else if previous.value.failures < 4_294_967_295 then previous.value.failures + 1
                              else 4_294_967_295)
            && (previous.Some? ==> r.lastSuccess == previous.value.lastSuccess && r.ariSuggestedAt == previous.value.ariSuggestedAt)
            && (previous.Some? && previous.value.failures <= 4_294_967_295 ==>
                  BaseSeconds(previous.value.failures) <= BaseSeconds(r.failures))
  {
    hide BaseSeconds;
    var r := Failed(previous, id, now, deadline, jitter);
    BackoffBounds(r.failures, jitter);
    if previous.Some? && previous.value.failures <= U32_MAX { BaseGrows(previous.value.failures, r.failures); }
  }

  /** An ARI refresh moves no gate and counts no failure; it asks again when the CA says, or
      in a week when the CA says nothing. */
  lemma RefreshHarmless(renewals: map<string, Renewal>, id: string, now: Time, ari: Option<(Time, nat)>, later: Time,
                        deadline: Option<Time>, jitter: int)
    ensures var before, after := Previous(renewals, id), Refreshed(Previous(renewals, id), now, ari);
            && (GateOpen(after, later) <==> GateOpen(before, later)) && (CaLive(after, later) <==> CaLive(before, later))
            && Failed(Some(after), id, later, deadline, jitter).failures == Failed(Look(renewals, id), id, later, deadline, jitter).failures
            && after.ariCheckedAt == Some(now)
            && after.ariNextCheck == Some(now + match ari case Some((_, retry)) => retry case None => 604_800)
            && after.ariSuggestedAt == match ari case Some((suggested, _)) => Some(suggested) case None => before.ariSuggestedAt
  {
    hide BaseSeconds;
  }

  /** The base is five minutes for the first failure, doubles with each one up to the eighth,
      and is twelve hours from then on. */
  lemma BaseDoubles(failures: nat)
    ensures BaseSeconds(failures) == if failures <= 1 then 300 else if failures <= 8 then 2 * BaseSeconds(failures - 1) else 43_200
  {
    assert Pow2(0) == 1;
    if 2 <= failures <= 8 {
      assert Pow2(failures - 1) == 2 * Pow2(failures - 2);
      Pow2Grows(failures - 1, 7);
      SmallPowers();
    } else if failures > 8 {
      SmallPowers();
    }
  }

  lemma SmallPowers()
    ensures Pow2(7) == 128 && Pow2(8) == 256
  {
    assert Pow2(1) == 2 && Pow2(2) == 4 && Pow2(3) == 8 && Pow2(4) == 16;
    assert Pow2(5) == 32 && Pow2(6) == 64 && Pow2(7) == 128;
  }

  /** A success closes the series: no gate, no deadline, no failures. */
  lemma SuccessOpens(id: string, now: Time, suggested: Option<Time>, nextCheck: Option<Time>, later: Time)
    ensures var r := Renewed(id, now, suggested, nextCheck);
            GateOpen(r, later) && r.nextAttempt == r.caRetryAfter == None && r.failures == 0 && r.lastSuccess == Some(now)
  {
  }

  // ---------------------------------------------------------------- due certificates

  function ActiveGeneration(t: Tables, id: string): Option<Generation> {
    if id in t.active && GenerationKey(id, t.active[id]) in t.generations
    then Some(t.generations[GenerationKey(id, t.active[id])]) else None
  }

  /** Enabled, not held back by its gate, and suggested by the CA, never issued, or
      close to its end. */
  predicate IsDue(t: Tables, cert: Certificate, now: Time, days: nat) {
    var state := Previous(t.renewals, cert.id);
    var generation := ActiveGeneration(t, cert.id);
    && cert.enabled
    && GateOpen(state, now)
    && (|| (state.ariSuggestedAt.Some? && state.ariSuggestedAt.value <= now)
        || generation.None? || generation.value.notAfter.None? || generation.value.notAfter.value <= now + days * 86_400)
  }

  /** Some generation of the certificate is active and lasts beyond this moment. */
  ghost predicate Lasts(t: Tables, id: string, until: Time) {
    exists g :: Look(t.active, id) == Some(g) && Issued(Look(t.generations, id + [NUL] + g), until)
  }

  ghost predicate Issued(generation: Option<Generation>, until: Time) {
    generation.Some? && generation.value.notAfter.Some? && generation.value.notAfter.value > until
  }

  /** A certificate is due exactly when it is enabled, its gate has passed or there is none,
      and the CA suggests a renewal by now or no active generation lasts that many days. */
  lemma DueIff(t: Tables, cert: Certificate, now: Time, days: nat)
    ensures IsDue(t, cert, now, days) <==>
      && cert.enabled
      && (cert.id in t.renewals && t.renewals[cert.id].nextAttempt.Some? ==> t.renewals[cert.id].nextAttempt.value <= now)
      && (|| (cert.id in t.renewals && t.renewals[cert.id].ariSuggestedAt.Some? && t.renewals[cert.id].ariSuggestedAt.value <= now)
          || !Lasts(t, cert.id, now + days * 86_400))
  {
    var id, until := cert.id, now + days * 86_400;
    if id in t.active {
      assert Lasts(t, id, until) <==> Issued(Look(t.generations, GenerationKey(id, t.active[id])), until);
    }
  }

  ghost predicate Stored(t: Tables, x: Certificate) {
    exists c :: c in t.certificates && t.certificates[c] == x
  }

  ghost predicate Listed(records: seq<(string, Certificate)>, n: nat, x: Certificate) {
    exists j :: 0 <= j < n && j < |records| && records[j].1 == x
  }

  lemma ListedStored(records: seq<(string, Certificate)>, t: Tables, x: Certificate)
    requires Enumerates(records, t.certificates)
    ensures Listed(records, |records|, x) <==> Stored(t, x)
  {
    if Stored(t, x) {
      var c :| c in t.certificates && t.certificates[c] == x;
      var j :| 0 <= j < |records| && records[j].0 == c;
      assert records[j].1 == x;
    }
    if Listed(records, |records|, x) {
      var j :| 0 <= j < |records| && records[j].1 == x;
      assert t.certificates[records[j].0] == x;
    }
  }

  lemma ListedNext(records: seq<(string, Certificate)>, n: nat, x: Certificate)
    requires n < |records|
    ensures Listed(records, n + 1, x) <==> Listed(records, n, x) || x == records[n].1
  {
  }

  method DueManagedCertificates(t: Tables, now: Time, days: nat) returns (due: seq<Certificate>)
    ensures forall x :: x in due <==> Stored(t, x) && IsDue(t, x, now, days)
  {
    hide IsDue, Listed, Stored;
    var records := Iterate(t.certificates);
    due := [];
    var i := 0;
    forall x ensures !Listed(records, 0, x) { NoneListed(records, x); }
    while i < |records|
      invariant 0 <= i <= |records|
      invariant forall x :: x in due <==> Listed(records, i, x) && IsDue(t, x, now, days)
    {
      forall x ensures Listed(records, i + 1, x) <==> Listed(records, i, x) || x == records[i].1 { ListedNext(records, i, x); }
      var picked := Pick(t, records[i].1, now, days);
      if picked { due := due + [records[i].1]; }
      i := i + 1;
    }
    forall x ensures Listed(records, |records|, x) <==> Stored(t, x) { ListedStored(records, t, x); }
  }

  lemma NoneListed(records: seq<(string, Certificate)>, x: Certificate)
    ensures !Listed(records, 0, x)
  {
  }

  /** One round of the loop of `due_managed_certificates`, in its own order of tests. */
  method Pick(t: Tables, cert: Certificate, now: Time, days: nat) returns (picked: bool)
    ensures picked == IsDue(t, cert, now, days)
  {
    if !cert.enabled { return false; }
    if cert.id in t.renewals {
      var state := t.renewals[cert.id];
      if state.nextAttempt.Some? && state.nextAttempt.value > now { return false; }
      if state.ariSuggestedAt.Some? && state.ariSuggestedAt.value <= now { return true; }
    }
    var generation := ActiveGeneration(t, cert.id);
    if generation.None? || generation.value.notAfter.None? { return true; }
    return generation.value.notAfter.value <= now + days * 86_400;
  }

  // ---------------------------------------------------------------- on the store

  /** Afterwards the certificate is not due until its gate, which lies strictly ahead, at most
      48 hours, and is the CA's deadline when a live one was given; the failures are counted
      and nothing else has changed. */
  method RecordFailure(store: Store, id: string, now: Time, deadline: Option<Time>, jitter: int)
    requires Jitter(Failed(Look(store.db.renewals, id), id, now, deadline, jitter).failures, jitter)
    modifies store
    ensures id in store.db.renewals && store.db == old(store.db).(renewals := old(store.db).renewals[id := store.db.renewals[id]])
    ensures var r := store.db.renewals[id];
            && r.nextAttempt.Some? && now < r.nextAttempt.value <= now + 172_800 && !GateOpen(r, now)
            && CaSays(deadline, now, r.caRetryAfter)
            && (CaLive(r, now) <==> deadline.Some? && deadline.value > now)
            && (r.caRetryAfter.Some? ==> r.nextAttempt == r.caRetryAfter)
            && (r.caRetryAfter.None? ==>
                  4 * BaseSeconds(r.failures) <= 5 * (r.nextAttempt.value - now) <= 6 * BaseSeconds(r.failures))
    ensures forall cert: Certificate, days: nat :: cert.id == id ==> !IsDue(store.db, cert, now, days)
    ensures Look(store.db.renewals, id) == Some(Failed(old(Look(store.db.renewals, id)), id, now, deadline, jitter))
  {
    var previous := if id in store.db.renewals then Some(store.db.renewals[id]) else None;
    FailureGate(previous, id, now, deadline, jitter);
    store.db := store.db.(renewals := store.db.renewals[id := Failed(previous, id, now, deadline, jitter)]);
  }

  function Cleared(r: Renewal): Renewal { r.(nextAttempt := None, caRetryAfter := None) }

  function Updates(entries: seq<(string, Renewal)>, now: Time): map<string, Renewal> {
    if entries == [] then map[]
    else
      var (id, state) := entries[|entries| - 1];
      var before := Updates(entries[..|entries| - 1], now);
      if Clears(state, now) then before[id := Cleared(state)] else before
  }

  lemma {:induction false} UpdatesAt(entries: seq<(string, Renewal)>, now: Time, id: string)
    requires forall i, j :: 0 <= i < j < |entries| ==> entries[i].0 != entries[j].0
    ensures forall i :: 0 <= i < |entries| && entries[i].0 == id ==>
      (id in Updates(entries, now) <==> Clears(entries[i].1, now))
      && (id in Updates(entries, now) ==> Updates(entries, now)[id] == Cleared(entries[i].1))
    ensures (forall i :: 0 <= i < |entries| ==> entries[i].0 != id) ==> id !in Updates(entries, now)
    decreases |entries|
  {
    hide Clears, Cleared;
    if entries != [] {
      var init := entries[..|entries| - 1];
      UpdatesAt(init, now, id);
      assert forall i :: 0 <= i < |init| ==> init[i] == entries[i];
    }
  }

  lemma UpdatesAll(renewals: map<string, Renewal>, entries: seq<(string, Renewal)>, now: Time)
    requires Enumerates(entries, renewals)
    ensures Updates(entries, now) == ClearedStates(renewals, now)
  {
    hide Updates, Clears;
    var u := Updates(entries, now);
    forall id ensures id in u <==> id in ClearedStates(renewals, now) {
      UpdatesAt(entries, now, id);
      if id in renewals { var i :| 0 <= i < |entries| && entries[i].0 == id; assert entries[i].1 == renewals[id]; }
    }
    forall id | id in u ensures u[id] == ClearedStates(renewals, now)[id] {
      UpdatesAt(entries, now, id);
      var i :| 0 <= i < |entries| && entries[i].0 == id;
      assert entries[i].1 == renewals[id];
    }
  }

  /** Every gate is gone that is not a CA deadline still ahead, and nothing else has changed. */
  ghost predicate GatesCleared(before: map<string, Renewal>, after: map<string, Renewal>, now: Time) {
    && after.Keys == before.Keys
    && (forall id :: id in before ==>
          var r := before[id];
          var live := r.caRetryAfter.Some? && r.caRetryAfter.value > now;
          after[id] == if live || r.nextAttempt.None? then r else r.(nextAttempt := None, caRetryAfter := None))
  }

  lemma ClearedIs(renewals: map<string, Renewal>, now: Time)
    ensures GatesCleared(renewals, renewals + ClearedStates(renewals, now), now)
  {
  }

  /** `clear_renewal_retry_gates`: the states it writes back, and how many. */
  method ClearRenewalRetryGates(store: Store, now: Time) returns (count: nat)
    modifies store
    ensures store.db == old(store.db).(renewals := old(store.db).renewals + ClearedStates(old(store.db).renewals, now))
    ensures count == |ClearedStates(old(store.db).renewals, now)|
    ensures GatesCleared(old(store.db).renewals, store.db.renewals, now)
  {
    hide Write, Clears, Cleared, Enumerates;
    var db := store.db;
    var entries := Iterate(db.renewals);
    var updates: map<string, Renewal> := map[];
    var batch: seq<Op> := [];
    WriteNone(db);
    assert db.renewals + updates == db.renewals;
    var i := 0;
    while i < |entries|
      invariant 0 <= i <= |entries| && store.db == db
      invariant updates == Updates(entries[..i], now)
      invariant Write(batch, db) == db.(renewals := db.renewals + updates)
    {
      assert entries[..i + 1][..i] == entries[..i];
      var (id, state) := entries[i];
      if Clears(state, now) {
        PutRenewalNext(batch, db, db, updates, id, Cleared(state));
        batch := batch + [PutRenewal(id, Cleared(state))];
        updates := updates[id := Cleared(state)];
      }
      i := i + 1;
    }
    assert entries[..|entries|] == entries;
    UpdatesAll(db.renewals, entries, now);
    count := |updates|;
    ClearedIs(db.renewals, now);
    hide GatesCleared, ClearedStates;
    store.db := Write(batch, db);
  }

  // ---------------------------------------------------------------- the protocol

  /** One scan at a time (the scheduler's mutex): it refreshes renewal information
      certificate by certificate, each as a read, a wait and a write; then picks the
      due ones as of its own start; then renews them concurrently. */
  datatype Scan =
    | NoScan
    | Refreshing(start: Time, reading: Option<(string, Renewal)>)
    | Renewing(start: Time, candidates: set<string>, running: set<string>)

  /** `clearing` is a manual gate clearing between its read and its write. */
  datatype World = World(t: Tables, clock: Time, scan: Scan, clearing: Option<map<string, Renewal>>)

  datatype Action =
    | Tick(seconds: nat)
    | StartScan
    | ReadForRefresh(id: string)
    | WriteRefresh(ari: Option<(Time, nat)>)
    | AbandonRefresh
    | AbortScan
    | PickDue(days: nat)
    | StartRenewal(id: string)
    | Succeed(id: string, suggested: Option<Time>, nextCheck: Option<Time>)
    | Fail(id: string, deadline: Option<Time>, jitter: int)
    | EndScan
    | ReadGates
    | WriteGates
    | Save(cert: Certificate)
    | Delete(id: string)

  ghost predicate Enabled(w: World, a: Action) {
    match a
    case Tick(_) => true
    case StartScan => w.scan.NoScan?
    case ReadForRefresh(_) => w.scan.Refreshing? && w.scan.reading.None?
    case WriteRefresh(_) => w.scan.Refreshing? && w.scan.reading.Some?
    case AbandonRefresh => w.scan.Refreshing? && w.scan.reading.Some?
    case AbortScan => w.scan.Refreshing?
    case PickDue(_) => w.scan.Refreshing? && w.scan.reading.None?
    case StartRenewal(id) => w.scan.Renewing? && id in w.scan.candidates
    case Succeed(id, _, _) => w.scan.Renewing? && id in w.scan.running
    case Fail(id, deadline, jitter) =>
      w.scan.Renewing? && id in w.scan.running && Jitter(Outcome(w, id, deadline, jitter).failures, jitter)
    case EndScan => w.scan.Renewing? && w.scan.candidates == {} && w.scan.running == {}
    case ReadGates => w.clearing.None?
    case WriteGates => w.clearing.Some?
    case Save(_) => true
    case Delete(_) => true
  }

  function Outcome(w: World, id: string, deadline: Option<Time>, jitter: int): Renewal {
    Failed(if id in w.t.renewals then Some(w.t.renewals[id]) else None, id, w.clock, deadline, jitter)
  }

  function WithRenewal(w: World, id: string, r: Renewal): World {
    w.(t := w.t.(renewals := w.t.renewals[id := r]))
  }

  function Take(w: World, a: Action): World {
    match a
    case Tick(n) => w.(clock := w.clock + n)
    case StartScan => w.(scan := Refreshing(w.clock, None))
    case ReadForRefresh(id) =>
      (match w.scan
       case Refreshing(s, _) => w.(scan := Refreshing(s, Some((id, Previous(w.t.renewals, id)))))
       case _ => w)
    case WriteRefresh(ari) =>
      (match w.scan
       case Refreshing(s, Some((id, previous))) => WithRenewal(w.(scan := Refreshing(s, None)), id, Refreshed(previous, s, ari))
       case _ => w)
    case AbandonRefresh => (match w.scan case Refreshing(s, _) => w.(scan := Refreshing(s, None)) case _ => w)
    case AbortScan => w.(scan := NoScan)
    case PickDue(days) =>
      (match w.scan
       case Refreshing(s, _) =>
         w.(scan := Renewing(s, set c | c in w.t.certificates && IsDue(w.t, w.t.certificates[c], s, days) :: w.t.certificates[c].id, {}))
       case _ => w)
    case StartRenewal(id) =>
      (match w.scan case Renewing(s, cs, rs) => w.(scan := Renewing(s, cs - {id}, rs + {id})) case _ => w)
    case Succeed(id, suggested, nextCheck) =>
      (match w.scan
       case Renewing(s, cs, rs) => WithRenewal(w.(scan := Renewing(s, cs, rs - {id})), id, Renewed(id, w.clock, suggested, nextCheck))
       case _ => w)
    case Fail(id, deadline, jitter) =>
      (match w.scan
       case Renewing(s, cs, rs) => WithRenewal(w.(scan := Renewing(s, cs, rs - {id})), id, Outcome(w, id, deadline, jitter))
       case _ => w)
    case EndScan => w.(scan := NoScan)
    case ReadGates => w.(clearing := Some(ClearedStates(w.t.renewals, w.clock)))
    case WriteGates =>
      (match w.clearing case Some(states) => w.(t := w.t.(renewals := w.t.renewals + states), clearing := None) case None => w)
    case Save(cert) =>
      (match Saved(w.t, cert, w.clock) case Ok(t) => w.(t := t) case Err(_) => w)
    case Delete(id) =>
      (match Deleted(w.t, id) case Ok((t, _)) => w.(t := t) case Err(_) => w)
  }

  /** A CA deadline that has not passed. */
  ghost predicate Live(w: World, id: string) {
    id in w.t.renewals && CaLive(w.t.renewals[id], w.clock)
  }

  /** The gate stored with a live CA deadline is that deadline or later. */
  ghost predicate Holds(r: Renewal, clock: Time) {
    CaLive(r, clock) ==> r.nextAttempt.Some? && r.nextAttempt.value >= r.caRetryAfter.value
  }

  /** What a scan under way may rely on. */
  ghost predicate ScanSafe(w: World) {
    match w.scan
    case NoScan => true
    case Refreshing(s, reading) =>
      && s <= w.clock
      && (reading.Some? ==>
            && Holds(reading.value.1, w.clock)
            && (Live(w, reading.value.0) ==>
                  reading.value.1.caRetryAfter == w.t.renewals[reading.value.0].caRetryAfter
                  && reading.value.1.nextAttempt == w.t.renewals[reading.value.0].nextAttempt))
    case Renewing(s, cs, rs) =>
      s <= w.clock && cs !! rs && forall id :: id in cs + rs && id in w.t.renewals ==> GateOpen(w.t.renewals[id], s)
  }

  ghost predicate Safe(w: World) {
    && (forall c :: c in w.t.certificates ==> w.t.certificates[c].id == c)
    && (forall id :: id in w.t.renewals ==> Holds(w.t.renewals[id], w.clock))
    && (w.clearing.Some? ==> forall id :: id in w.clearing.value ==>
          w.clearing.value[id].nextAttempt.None? && w.clearing.value[id].caRetryAfter.None?)
    && ScanSafe(w)
  }

  /** A live CA deadline is out of reach of a clearing under way: neither the stored
      state nor the one a refresh has read carries it for a listed certificate, and
      what a refresh has read of it is what is stored. */
  ghost predicate Undisturbed(w: World) {
    && (w.clearing.Some? ==> forall id :: id in w.clearing.value ==> !Live(w, id))
    && (w.scan.Refreshing? && w.scan.reading.Some? && CaLive(w.scan.reading.value.1, w.clock) ==>
          && (w.clearing.Some? ==> w.scan.reading.value.0 !in w.clearing.value)
          && (w.scan.reading.value.0 in w.t.renewals ==>
                w.t.renewals[w.scan.reading.value.0].caRetryAfter == w.scan.reading.value.1.caRetryAfter))
  }

  /** This step does not record a CA deadline for a certificate that a clearing under
      way is about to write. */
  ghost predicate Calm(w: World, a: Action) {
    a.Fail? && w.clearing.Some? && a.id in w.clearing.value ==> CaGate(a.deadline, w.clock).None?
  }

  /** No renewal state is new or changed, and records lie under their own names. */
  ghost predicate Fewer(t': Tables, t: Tables) {
    && (forall id :: id in t'.renewals ==> id in t.renewals && t'.renewals[id] == t.renewals[id])
    && (forall c :: c in t'.certificates ==> t'.certificates[c].id == c)
  }

  predicate OnStore(a: Action) { a.Save? || a.Delete? }

  lemma StoreStep(w: World, a: Action)
    requires Safe(w) && OnStore(a)
    ensures Take(w, a) == w.(t := Take(w, a).t) && Fewer(Take(w, a).t, w.t)
    ensures forall id :: id in w.t.renewals && a != Delete(id) ==> id in Take(w, a).t.renewals
  {
    hide NormalizeDomain, NormalizeAll, Own, ScanSafe;
  }

  lemma FewerSafe(w: World, t: Tables)
    requires Safe(w) && Fewer(t, w.t)
    ensures Safe(w.(t := t)) && (Undisturbed(w) ==> Undisturbed(w.(t := t)))
  {
  }

  lemma TakeSafe(w: World, a: Action)
    requires Safe(w) && Enabled(w, a)
    ensures Safe(Take(w, a))
  {
    hide IsDue, Saved, Deleted, Failed, Refreshed;
    if OnStore(a) {
      StoreStep(w, a);
      FewerSafe(w, Take(w, a).t);
    } else {
      match a
      case Fail(id, deadline, jitter) => FailSafe(w, id, deadline, jitter);
      case PickDue(days) => PickedOpen(w, days);
      case WriteRefresh(ari) => RefreshSafe(w, ari);
      case _ =>
    }
  }

  lemma FailSafe(w: World, id: string, deadline: Option<Time>, jitter: int)
    requires Safe(w) && Enabled(w, Fail(id, deadline, jitter))
    ensures Safe(Take(w, Fail(id, deadline, jitter)))
  {
    FailureGate(if id in w.t.renewals then Some(w.t.renewals[id]) else None, id, w.clock, deadline, jitter);
    hide Failed, BaseSeconds;
  }

  lemma RefreshSafe(w: World, ari: Option<(Time, nat)>)
    requires Safe(w) && Enabled(w, WriteRefresh(ari))
    ensures Safe(Take(w, WriteRefresh(ari)))
  {
  }

  lemma PickedOpen(w: World, days: nat)
    requires Safe(w) && Enabled(w, PickDue(days))
    ensures Safe(Take(w, PickDue(days)))
  {
    var w' := Take(w, PickDue(days));
    forall id | id in w'.scan.candidates && id in w.t.renewals ensures GateOpen(w.t.renewals[id], w.scan.start) {
      var c :| c in w.t.certificates && IsDue(w.t, w.t.certificates[c], w.scan.start, days) && w.t.certificates[c].id == id;
    }
  }

  // ---------------------------------------------------------------- what every run keeps

  /** No renewal starts before the gate stored for its certificate. */
  lemma NoEarlyStart(w: World, id: string)
    requires Safe(w) && Enabled(w, StartRenewal(id))
    ensures id in w.t.renewals ==> GateOpen(w.t.renewals[id], w.clock)
  {
  }

  /** The stored deadline `d` still gates this certificate. */
  ghost predicate Gated(w: World, id: string, d: Time) {
    && id in w.t.renewals && w.t.renewals[id].caRetryAfter == Some(d)
    && w.t.renewals[id].nextAttempt.Some? && w.t.renewals[id].nextAttempt.value >= d
  }

  lemma NotUnderRenewal(w: World, id: string)
    requires Safe(w) && Live(w, id) && w.scan.Renewing?
    ensures id !in w.scan.running && id !in w.scan.candidates
  {
    assert Holds(w.t.renewals[id], w.clock);
  }

  /** One step keeps a CA deadline that stays live, unless it deletes the certificate. */
  lemma StepKeepsDeadline(w: World, a: Action, id: string, d: Time)
    requires Safe(w) && Undisturbed(w) && Enabled(w, a) && a != Delete(id)
    requires Gated(w, id, d) && d > Take(w, a).clock
    ensures Gated(Take(w, a), id, d)
  {
    hide IsDue, Saved, Deleted, BaseSeconds, ClearedStates;
    assert Live(w, id);
    if OnStore(a) { StoreStep(w, a); }
    if w.scan.Renewing? { NotUnderRenewal(w, id); }
  }

  lemma CalmStaysUndisturbed(w: World, a: Action)
    requires Safe(w) && Undisturbed(w) && Enabled(w, a) && Calm(w, a)
    ensures Undisturbed(Take(w, a))
  {
    hide IsDue, Saved, Deleted, BaseSeconds;
    if OnStore(a) {
      StoreStep(w, a);
      FewerSafe(w, Take(w, a).t);
    }
  }

  ghost predicate Behaviour(ws: seq<World>, actions: seq<Action>) {
    && |ws| == |actions| + 1
    && forall i :: 0 <= i < |actions| ==> Enabled(ws[i], actions[i]) && ws[i + 1] == Take(ws[i], actions[i])
  }

  predicate Ends(a: Action, id: string) { (a.Succeed? || a.Fail?) && a.id == id }

  /** Once a renewal has ended, it is not under way until it is started again. */
  lemma {:induction false} NotRunning(ws: seq<World>, actions: seq<Action>, id: string, i: nat, j: nat)
    requires Behaviour(ws, actions) && i < j <= |actions| && Ends(actions[i], id)
    requires forall k :: i < k < j ==> actions[k] != StartRenewal(id)
    ensures ws[j].scan.Renewing? ==> id !in ws[j].scan.running
    decreases j
  {
    hide IsDue, Saved, Deleted, Refreshed, Failed, ClearedStates;
    assert Enabled(ws[j - 1], actions[j - 1]) && ws[j] == Take(ws[j - 1], actions[j - 1]);
    if j > i + 1 {
      NotRunning(ws, actions, id, i, j - 1);
    }
  }

  /** No renewal ends twice: between two outcomes for a certificate it was started anew. */
  lemma OutcomeOnce(ws: seq<World>, actions: seq<Action>, id: string, i: nat, j: nat) returns (k: nat)
    requires Behaviour(ws, actions) && i < j < |actions| && Ends(actions[i], id) && Ends(actions[j], id)
    ensures i < k < j && actions[k] == StartRenewal(id)
  {
    assert Enabled(ws[j], actions[j]);
    if forall x :: i < x < j ==> actions[x] != StartRenewal(id) {
      NotRunning(ws, actions, id, i, j);
      assert false;
    }
    var x :| i < x < j && actions[x] == StartRenewal(id);
    k := x;
  }

  /** A refresh that nothing interrupts stores its answer over what it read, as of the
      start of the scan, and touches no other state. */
  lemma RefreshLands(ws: seq<World>, actions: seq<Action>, i: nat, id: string, ari: Option<(Time, nat)>)
    requires Behaviour(ws, actions) && i + 1 < |actions|
    requires actions[i] == ReadForRefresh(id) && actions[i + 1] == WriteRefresh(ari)
    ensures var before, after := ws[i], ws[i + 2];
            && before.scan.Refreshing? && after.scan == Refreshing(before.scan.start, None)
            && id in after.t.renewals && after.t.renewals[id].ariCheckedAt == Some(before.scan.start)
            && (ari.Some? ==> after.t.renewals[id].ariSuggestedAt == Some(ari.value.0))
            && after.t.renewals[id].nextAttempt == Previous(before.t.renewals, id).nextAttempt
            && (forall x :: x != id ==> Look(after.t.renewals, x) == Look(before.t.renewals, x))
  {
    assert Enabled(ws[i], actions[i]) && ws[i + 1] == Take(ws[i], actions[i]);
    assert Enabled(ws[i + 1], actions[i + 1]) && ws[i + 2] == Take(ws[i + 1], actions[i + 1]);
    hide IsDue, Saved, Deleted, Failed, ClearedStates;
  }

  lemma {:induction false} RunSafe(ws: seq<World>, actions: seq<Action>, i: nat)
    requires Behaviour(ws, actions) && Safe(ws[0]) && i < |ws|
    ensures Safe(ws[i])
    decreases i
  {
    hide Safe, Enabled, Take;
    if i > 0 {
      RunSafe(ws, actions, i - 1);
      TakeSafe(ws[i - 1], actions[i - 1]);
    }
  }

  lemma {:induction false} RunUndisturbed(ws: seq<World>, actions: seq<Action>, i: nat)
    requires Behaviour(ws, actions) && Safe(ws[0]) && Undisturbed(ws[0]) && i < |ws|
    requires forall k :: 0 <= k < |actions| ==> Calm(ws[k], actions[k])
    ensures Undisturbed(ws[i])
    decreases i
  {
    hide Safe, Enabled, Take, Undisturbed, Calm;
    if i > 0 {
      RunUndisturbed(ws, actions, i - 1);
      RunSafe(ws, actions, i - 1);
      CalmStaysUndisturbed(ws[i - 1], actions[i - 1]);
    }
  }

  /** In every run of scans, broken off or not, of refreshes, renewals, gate clearings,
      saves and deletions in which
      no failure with a CA deadline falls between the read and the write of a clearing
      that lists its certificate, a stored CA deadline gates its certificate until it
      passes or the certificate is deleted. */
  lemma {:induction false} DeadlineKept(ws: seq<World>, actions: seq<Action>, i: nat, j: nat, id: string, d: Time)
    requires Behaviour(ws, actions) && Safe(ws[0]) && Undisturbed(ws[0]) && i <= j < |ws|
    requires forall k :: 0 <= k < |actions| ==> Calm(ws[k], actions[k])
    requires Gated(ws[i], id, d) && d > ws[j].clock
    requires forall k :: i <= k < j ==> actions[k] != Delete(id)
    ensures Gated(ws[j], id, d)
    decreases j
  {
    hide Safe, Enabled, Take, Undisturbed, Calm, Gated;
    if i < j {
      ClockGrows(ws[j - 1], actions[j - 1]);
      DeadlineKept(ws, actions, i, j - 1, id, d);
      RunSafe(ws, actions, j - 1);
      RunUndisturbed(ws, actions, j - 1);
      StepKeepsDeadline(ws[j - 1], actions[j - 1], id, d);
    }
  }

  lemma ClockGrows(w: World, a: Action)
    ensures w.clock <= Take(w, a).clock
  {
    hide IsDue, Saved, Deleted, ClearedStates;
  }

  /** In every run, disturbed or not, no renewal starts before the stored gate. */
  lemma RunNeverStartsEarly(ws: seq<World>, actions: seq<Action>, i: nat)
    requires Behaviour(ws, actions) && Safe(ws[0]) && i < |actions| && actions[i].StartRenewal?
    ensures actions[i].id in ws[i].t.renewals ==> GateOpen(ws[i].t.renewals[actions[i].id], ws[i].clock)
  {
    hide Safe, Enabled, Take;
    RunSafe(ws, actions, i);
    NoEarlyStart(ws[i], actions[i].id);
  }

  // ---------------------------------------------------------------- the race that loses a deadline

  /** The write of a clearing keeps every live CA deadline exactly when none of the
      certificates it listed has acquired one since. */
  lemma WriteGatesKeepsIff(w: World)
    requires Safe(w) && w.clearing.Some?
    ensures (forall id :: Live(w, id) ==> Live(Take(w, WriteGates), id)) <==> (forall id :: id in w.clearing.value ==> !Live(w, id))
  {
    var w' := Take(w, WriteGates);
    if forall id :: Live(w, id) ==> Live(w', id) {
      forall id | id in w.clearing.value ensures !Live(w, id) {
        assert w'.t.renewals[id] == w.clearing.value[id];
      }
    }
  }

  /** It can happen: a retry under way fails with a CA deadline after a manual clearing
      has read the old gate, and the clearing erases the deadline it never saw. */
  lemma ClearingCanEraseDeadline(w: World, id: string, deadline: Time, jitter: int)
    requires Safe(w) && w.clearing.None? && w.scan.Renewing? && id in w.scan.running
    requires id in w.t.renewals && w.t.renewals[id].nextAttempt.Some?
    requires deadline > w.clock && Jitter(Outcome(w, id, Some(deadline), jitter).failures, jitter)
    ensures var w1 := Take(w, ReadGates);
            var w2 := Take(w1, Fail(id, Some(deadline), jitter));
            var w3 := Take(w2, WriteGates);
            && Enabled(w, ReadGates) && Enabled(w1, Fail(id, Some(deadline), jitter)) && Enabled(w2, WriteGates)
            && Live(w2, id) && !Live(w3, id) && GateOpen(w3.t.renewals[id], w3.clock)
  {
    hide BaseSeconds;
    assert Holds(w.t.renewals[id], w.clock) && GateOpen(w.t.renewals[id], w.scan.start);
  }
}
