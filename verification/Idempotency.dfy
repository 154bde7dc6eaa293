/**
 * The idempotency guard (backend/src/common/Idempotency/idempotency.guard.ts) and the interceptor that
 * completes a record (backend/src/common/interceptors/idempotency.interceptor.ts). Many requests run
 * through them at once; the guard can be interrupted between its read and the rest.
 */
module Idempotency {
  import opened Options

  /** Two minutes, in milliseconds. */
  const STALE_AFTER: nat := 2 * 60 * 1000

  type Key = string
  type Hash = string
  type RequestId = nat

  datatype Status = Processing | Completed

  datatype Record = Record(hash: Hash, status: Status, createdAt: nat)

  datatype Outcome = Admitted | PayloadMismatch | AlreadyCompleted | InProgress | CreateFailed

  function Lookup(records: map<Key, Record>, key: Key): Option<Record> {
    if key in records then Some(records[key]) else None
  }

  /** A record still processing after this long no longer blocks anybody. */
  predicate Stale(seen: Option<Record>, hash: Hash, now: nat) {
    seen.Some? && seen.value.hash == hash && seen.value.status.Processing? && now - seen.value.createdAt > STALE_AFTER
  }

  /** What the guard does with a record it read earlier; `taken` says the key has a record by now. */
  function Judge(seen: Option<Record>, taken: bool, hash: Hash, now: nat): Outcome {
    if seen.None? then (if taken then CreateFailed else Admitted)
    else if seen.value.hash != hash then PayloadMismatch
    else if Stale(seen, hash, now) then Admitted
    else if seen.value.status.Completed? then AlreadyCompleted
    else InProgress
  }

  class IdempotencyGuard {
    var records: map<Key, Record>

    constructor ()
      ensures records == map[]
    {
      records := map[];
    }

    /** The guard run without interruption. A request without a key, or with an empty one, is let through. */
    method CanActivate(key: Option<Key>, hash: Hash, now: nat) returns (outcome: Outcome)
      modifies this
      ensures key.None? || key.value == "" ==> outcome == Admitted && records == old(records)
      ensures key.Some? && key.value != "" ==>
                && outcome == Judge(Lookup(old(records), key.value), key.value in old(records), hash, now)
                && records == (if key.value in old(records) then old(records)
                               else old(records)[key.value := Record(hash, Processing, now)])
      ensures key.Some? && key.value != "" && key.value !in old(records) ==> outcome == Admitted
      ensures key.Some? && key.value != "" && key.value in old(records) ==>
                var record := old(records)[key.value];
                && (outcome == PayloadMismatch <==> record.hash != hash)
                && (outcome == Admitted <==>
                      record.hash == hash && record.status == Processing && now - record.createdAt > 120000)
                && (outcome == InProgress <==>
                      record.hash == hash && record.status == Processing && now - record.createdAt <= 120000)
                && (outcome == AlreadyCompleted <==> record.hash == hash && record.status == Completed)
    {
      if key.None? || key.value == "" { return Admitted; }
      var record := Lookup(records, key.value);
      if record.None? {
        records := records[key.value := Record(hash, Processing, now)];
        return Admitted;
      }
      if record.value.hash != hash { return PayloadMismatch; }
      var age := now - record.value.createdAt;
      if record.value.status.Processing? && age > STALE_AFTER { return Admitted; }
      if record.value.status.Completed? { return AlreadyCompleted; }
      return InProgress;
    }

    /** Only a request that succeeded gets here; the record keeps its hash and its age. */
    method Finish(key: Option<Key>)
      requires key.Some? && key.value != "" ==> key.value in records
      modifies this
      ensures records.Keys == old(records).Keys
      ensures forall k | k in records ::
                records[k] == (if key == Some(k) && k != ""
                               then old(records)[k].(status := Completed) else old(records)[k])
    {
      if key.None? || key.value == "" { return; }
      records := records[key.value := records[key.value].(status := Completed)];
    }
  }

  // ── Interleaved requests ──────────────────────────────────────────────────

  /** A request between its read and its decision, with the record it saw. */
  datatype InFlight = InFlight(key: Key, hash: Hash, seen: Option<Record>)

  datatype Admission = Admission(key: Key, hash: Hash, at: nat, created: bool)

  datatype State = State(now: nat, records: map<Key, Record>, inFlight: map<RequestId, InFlight>, log: seq<Admission>)

  datatype Step =
    | Tick(elapsed: nat)
    | Read(id: RequestId, key: Key, hash: Hash)
    | Decide(id: RequestId)
    | Complete(key: Key)

  const START := State(0, map[], map[], [])

  predicate Enabled(s: State, step: Step) {
    match step
    case Tick(_) => true
    case Read(id, _, _) => id !in s.inFlight
    case Decide(id) => id in s.inFlight
    case Complete(key) => key in s.records
  }

  function Decided(s: State, id: RequestId): State
    requires id in s.inFlight
  {
    var r := s.inFlight[id];
    var created := r.seen.None? && r.key !in s.records;
    s.(inFlight := s.inFlight - {id},
       records := if created then s.records[r.key := Record(r.hash, Processing, s.now)] else s.records,
       log := if Judge(r.seen, r.key in s.records, r.hash, s.now).Admitted?
              then s.log + [Admission(r.key, r.hash, s.now, created)] else s.log)
  }

  function Next(s: State, step: Step): State
    requires Enabled(s, step)
  {
    match step
    case Tick(elapsed) => s.(now := s.now + elapsed)
    case Read(id, key, hash) => s.(inFlight := s.inFlight[id := InFlight(key, hash, Lookup(s.records, key))])
    case Decide(id) => Decided(s, id)
    case Complete(key) => s.(records := s.records[key := s.records[key].(status := Completed)])
  }

  ghost predicate ValidRun(s: State, steps: seq<Step>)
    decreases |steps|, 0
  {
    steps == [] || (ValidRun(s, steps[..|steps| - 1]) && Enabled(After(s, steps[..|steps| - 1]), steps[|steps| - 1]))
  }

  ghost function After(s: State, steps: seq<Step>): State
    requires ValidRun(s, steps)
    decreases |steps|, 1
  {
    if steps == [] then s else Next(After(s, steps[..|steps| - 1]), steps[|steps| - 1])
  }

  /** The uninterrupted guard is one read step followed at once by the decision. */
  lemma ReadThenDecide(s: State, id: RequestId, key: Key, hash: Hash)
    requires id !in s.inFlight
    ensures var t := Decided(Next(s, Read(id, key, hash)), id);
            && t.records == (if key in s.records then s.records else s.records[key := Record(hash, Processing, s.now)])
            && (t.log != s.log <==> Judge(Lookup(s.records, key), key in s.records, hash, s.now).Admitted?)
            && t.inFlight == s.inFlight
  {
    assert s.inFlight[id := InFlight(key, hash, Lookup(s.records, key))] - {id} == s.inFlight;
  }

  // ── The invariant ─────────────────────────────────────────────────────────

  /** What a request saw is an older state of the record: a status may lag, hash and age never change. */
  predicate SawOlder(records: map<Key, Record>, r: InFlight) {
    r.seen.Some? ==>
      (&& r.key in records
       && r.seen.value.hash == records[r.key].hash
       && r.seen.value.createdAt == records[r.key].createdAt)
  }

  /** The creator comes at the record's birth, everyone else only after the window; all with its hash. */
  predicate Warranted(records: map<Key, Record>, a: Admission) {
    && a.key in records
    && a.hash == records[a.key].hash
    && (if a.created then a.at == records[a.key].createdAt else a.at > records[a.key].createdAt + STALE_AFTER)
  }

  ghost predicate Invariant(s: State) {
    && (forall id :: id in s.inFlight ==> SawOlder(s.records, s.inFlight[id]))
    && (forall i :: 0 <= i < |s.log| ==> Warranted(s.records, s.log[i]))
    && (forall i, j {:trigger s.log[i], s.log[j]} :: 0 <= i < j < |s.log| && s.log[i].key == s.log[j].key ==>
       !s.log[j].created)
  }

  lemma InvariantStep(s: State, step: Step)
    requires Invariant(s) && Enabled(s, step)
    ensures Invariant(Next(s, step))
  {
    var t := Next(s, step);
    forall id | id in t.inFlight ensures SawOlder(t.records, t.inFlight[id]) {
      if id in s.inFlight { assert SawOlder(s.records, s.inFlight[id]); }
    }
    forall i | 0 <= i < |t.log| ensures Warranted(t.records, t.log[i]) {
      if i < |s.log| {
        assert Warranted(s.records, s.log[i]);
      } else {
        assert SawOlder(s.records, s.inFlight[step.id]);
      }
    }
    forall i, j | 0 <= i < j < |t.log| && t.log[i].key == t.log[j].key ensures !t.log[j].created {
      assert Warranted(s.records, s.log[i]);
    }
  }

  lemma {:induction false} InvariantRun(steps: seq<Step>)
    requires ValidRun(START, steps)
    ensures Invariant(After(START, steps))
    decreases |steps|
  {
    if steps != [] {
      InvariantRun(steps[..|steps| - 1]);
      InvariantStep(After(START, steps[..|steps| - 1]), steps[|steps| - 1]);
    }
  }

  /**
   * Whatever the interleaving: of two admissions of a key, the later one comes more than two minutes
   * after the record was created, and both carry the same body hash.
   */
  lemma OncePerWindow(steps: seq<Step>, i: nat, j: nat)
    requires ValidRun(START, steps)
    requires i < j < |After(START, steps).log| && After(START, steps).log[i].key == After(START, steps).log[j].key
    ensures var t := After(START, steps);
            && t.log[i].hash == t.log[j].hash
            && t.log[i].key in t.records
            && t.log[j].at > t.records[t.log[i].key].createdAt + STALE_AFTER
  {
    InvariantRun(steps);
    var t := After(START, steps);
    assert Warranted(t.records, t.log[i]) && Warranted(t.records, t.log[j]);
  }

  // ── How often a key is admitted ───────────────────────────────────────────

  function Admissions(log: seq<Admission>, key: Key): nat
    decreases |log|
  {
    if log == [] then 0
    else Admissions(log[..|log| - 1], key) + (if log[|log| - 1].key == key then 1 else 0)
  }

  /** The step takes the staleness branch for this key. */
  predicate IsStaleDecision(s: State, step: Step, key: Key) {
    step.Decide? && step.id in s.inFlight && s.inFlight[step.id].key == key
    && Stale(s.inFlight[step.id].seen, s.inFlight[step.id].hash, s.now)
  }

  ghost function StaleDecisions(s: State, steps: seq<Step>, key: Key): nat
    requires ValidRun(s, steps)
    decreases |steps|
  {
    if steps == [] then 0 else
      var init := steps[..|steps| - 1];
      StaleDecisions(s, init, key) + (if IsStaleDecision(After(s, init), steps[|steps| - 1], key) then 1 else 0)
  }

  lemma AdmissionsSnoc(log: seq<Admission>, a: Admission, key: Key)
    ensures Admissions(log + [a], key) == Admissions(log, key) + (if a.key == key then 1 else 0)
  {
    assert (log + [a])[..|log|] == log;
  }

  /** A key is admitted once for its creation and once more for every stale decision. */
  lemma {:induction false} AdmissionsCounted(steps: seq<Step>, key: Key)
    requires ValidRun(START, steps)
    ensures var t := After(START, steps);
            && Admissions(t.log, key) == (if key in t.records then 1 else 0) + StaleDecisions(START, steps, key)
            && (key !in t.records ==> StaleDecisions(START, steps, key) == 0)
    decreases |steps|
  {
    if steps != [] {
      var init, step := steps[..|steps| - 1], steps[|steps| - 1];
      var s, t := After(START, init), After(START, steps);
      AdmissionsCounted(init, key);
      InvariantRun(init);
      if step.Decide? {
        assert SawOlder(s.records, s.inFlight[step.id]);
        if t.log != s.log { AdmissionsSnoc(s.log, t.log[|s.log|], key); }
      }
    }
  }

  /** The step at position i of the run takes the staleness branch for this key. */
  ghost predicate StaleAt(s: State, steps: seq<Step>, i: nat, key: Key)
    requires ValidRun(s, steps) && i < |steps|
  {
    Prefix(s, steps, i);
    IsStaleDecision(After(s, steps[..i]), steps[i], key)
  }

  lemma StaleAtPrefix(s: State, steps: seq<Step>, n: nat, i: nat, key: Key)
    requires ValidRun(s, steps) && i < n <= |steps|
    ensures ValidRun(s, steps[..n]) && StaleAt(s, steps[..n], i, key) == StaleAt(s, steps, i, key)
  {
    Prefix(s, steps, n);
    assert steps[..n][..i] == steps[..i];
  }

  lemma {:induction false} NoneStale(s: State, steps: seq<Step>, key: Key)
    requires ValidRun(s, steps)
    ensures StaleDecisions(s, steps, key) == 0 <==> forall i: nat :: i < |steps| ==> !StaleAt(s, steps, i, key)
    decreases |steps|
  {
    if steps != [] {
      var n: nat := |steps| - 1;
      NoneStale(s, steps[..n], key);
      forall i: nat | i < n ensures StaleAt(s, steps[..n], i, key) == StaleAt(s, steps, i, key) {
        StaleAtPrefix(s, steps, n, i, key);
      }
      assert StaleAt(s, steps, n, key) <==> IsStaleDecision(After(s, steps[..n]), steps[n], key);
    }
  }

  lemma {:induction false} Prefix(s: State, steps: seq<Step>, i: nat)
    requires ValidRun(s, steps) && i <= |steps|
    ensures ValidRun(s, steps[..i])
    decreases |steps|
  {
    if i < |steps| {
      assert steps[..|steps| - 1][..i] == steps[..i];
      Prefix(s, steps[..|steps| - 1], i);
    } else {
      assert steps[..i] == steps;
    }
  }

  /**
   * At most one admission of a key ever is false of this guard. It holds of a run exactly when no
   * request of that key is decided on a record it saw processing and that is over two minutes old.
   */
  lemma AtMostOnceIff(steps: seq<Step>, key: Key)
    requires ValidRun(START, steps)
    ensures Admissions(After(START, steps).log, key) <= 1 <==>
              forall i: nat :: i < |steps| ==> !StaleAt(START, steps, i, key)
  {
    AdmissionsCounted(steps, key);
    NoneStale(START, steps, key);
  }

  // ── The failing family: the stale record is never refreshed ───────────────

  /** One retry: read and decide with nothing in between. */
  function Retry(s: State, id: RequestId, key: Key, hash: Hash): State
    requires id !in s.inFlight
  {
    Decided(Next(s, Read(id, key, hash)), id)
  }

  function Retries(s: State, n: nat, id: RequestId, key: Key, hash: Hash): (t: State)
    requires id !in s.inFlight
    ensures t.inFlight == s.inFlight
  {
    if n == 0 then s else
      var u := Retries(s, n - 1, id, key, hash);
      ReadThenDecide(u, id, key, hash);
      Retry(u, id, key, hash)
  }

  lemma RetryAdmitted(s: State, id: RequestId, key: Key, hash: Hash)
    requires id !in s.inFlight && Stale(Lookup(s.records, key), hash, s.now)
    ensures var t := Retry(s, id, key, hash);
            Admissions(t.log, key) == Admissions(s.log, key) + 1 && t.records == s.records && t.now == s.now
  {
    AdmissionsSnoc(s.log, Admission(key, hash, s.now, false), key);
  }

  /** Past the window every one of any number of retries is admitted: admitting one does not renew the record. */
  lemma {:induction false} EveryRetryAdmitted(s: State, n: nat, id: RequestId, key: Key, hash: Hash)
    requires id !in s.inFlight && Stale(Lookup(s.records, key), hash, s.now)
    ensures var t := Retries(s, n, id, key, hash);
            Admissions(t.log, key) == Admissions(s.log, key) + n && t.records == s.records && t.now == s.now
  {
    if n > 0 {
      EveryRetryAdmitted(s, n - 1, id, key, hash);
      RetryAdmitted(Retries(s, n - 1, id, key, hash), id, key, hash);
    }
  }

  // ── Completion ────────────────────────────────────────────────────────────

  predicate IsCompleted(s: State, key: Key) {
    key in s.records && s.records[key].status.Completed?
  }

  /** A request under way read the key's record while it was processing, with the request's own hash. */
  ghost predicate HoldsProcessing(s: State, key: Key) {
    exists id :: id in s.inFlight && s.inFlight[id].key == key && s.inFlight[id].seen.Some?
                 && s.inFlight[id].seen.value.status.Processing?
                    && s.inFlight[id].seen.value.hash == s.inFlight[id].hash
  }

  /** No continuation admits the key once more. */
  ghost predicate NeverAdmittedAgain(s: State, key: Key) {
    forall steps :: ValidRun(s, steps) ==> Admissions(After(s, steps).log, key) == Admissions(s.log, key)
  }

  lemma SettledStep(s: State, step: Step, key: Key)
    requires IsCompleted(s, key) && !HoldsProcessing(s, key) && Enabled(s, step)
    ensures var t := Next(s, step);
            IsCompleted(t, key) && !HoldsProcessing(t, key) && Admissions(t.log, key) == Admissions(s.log, key)
  {
    if step.Decide? && Next(s, step).log != s.log {
      var r := s.inFlight[step.id];
      AdmissionsSnoc(s.log, Admission(r.key, r.hash, s.now, r.seen.None? && r.key !in s.records), key);
    }
  }

  lemma {:induction false} SettledRun(s: State, steps: seq<Step>, key: Key)
    requires IsCompleted(s, key) && !HoldsProcessing(s, key) && ValidRun(s, steps)
    ensures IsCompleted(After(s, steps), key) && !HoldsProcessing(After(s, steps), key)
    ensures Admissions(After(s, steps).log, key) == Admissions(s.log, key)
    decreases |steps|
  {
    if steps != [] {
      SettledRun(s, steps[..|steps| - 1], key);
      SettledStep(After(s, steps[..|steps| - 1]), steps[|steps| - 1], key);
    }
  }

  /** A request that holds such a snapshot is admitted as soon as two minutes have passed. */
  lemma SnapshotIsAdmitted(s: State, id: RequestId) returns (steps: seq<Step>)
    requires id in s.inFlight && s.inFlight[id].seen.Some? && s.inFlight[id].seen.value.status.Processing?
    requires s.inFlight[id].seen.value.hash == s.inFlight[id].hash
    ensures ValidRun(s, steps)
    ensures Admissions(After(s, steps).log, s.inFlight[id].key) == Admissions(s.log, s.inFlight[id].key) + 1
  {
    var r := s.inFlight[id];
    var wait := Tick(r.seen.value.createdAt + STALE_AFTER + 1);
    steps := [wait, Decide(id)];
    assert [wait][..0] == [] && steps[..1] == [wait];
    assert ValidRun(s, []) && After(s, []) == s;
    assert ValidRun(s, [wait]) && After(s, [wait]) == Next(s, wait);
    AdmissionsSnoc(s.log, Admission(r.key, r.hash, Next(s, wait).now, false), r.key);
  }

  /**
   * A completed key is never admitted again, on any continuation, if and only if no request under way
   * holds a snapshot of its record, still processing, with the request's own hash.
   */
  lemma CompletionIsFinalIff(s: State, key: Key)
    requires IsCompleted(s, key)
    ensures NeverAdmittedAgain(s, key) <==> !HoldsProcessing(s, key)
  {
    if HoldsProcessing(s, key) {
      var id :| id in s.inFlight && s.inFlight[id].key == key && s.inFlight[id].seen.Some?
                && s.inFlight[id].seen.value.status.Processing?
                   && s.inFlight[id].seen.value.hash == s.inFlight[id].hash;
      var steps := SnapshotIsAdmitted(s, id);
    } else {
      forall steps | ValidRun(s, steps) ensures Admissions(After(s, steps).log, key) == Admissions(s.log, key) {
        SettledRun(s, steps, key);
      }
    }
  }

  /** Such a snapshot is reachable: a request that read before the completion is admitted after it. */
  lemma SnapshotOutlivesCompletion(s: State, id: RequestId, key: Key, hash: Hash)
    requires id !in s.inFlight && Stale(Lookup(s.records, key), hash, s.now)
    ensures var read := Next(s, Read(id, key, hash));
            && Enabled(read, Complete(key))
            && var completed := Next(read, Complete(key));
               && completed.records[key].status.Completed?
               && Admissions(Decided(completed, id).log, key) == Admissions(s.log, key) + 1
  {
    AdmissionsSnoc(s.log, Admission(key, hash, s.now, false), key);
  }
}
