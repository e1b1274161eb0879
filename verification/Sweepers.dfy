/** Any number of recovery loops beside any other traffic. A sweeper scans in one query and retries in a later
    transaction; arbitrary steps of the environment and of other sweepers fall in between. */
module Sweepers {
  import opened Prelude
  import opened Tokens
  import opened Domain
  import opened Spine
  import opened SpineInvariant
  import opened SpineSteps
  import opened SpineRuns
  import opened SpineLifecycle
  import opened Recovery

  // ---- One scan, one retry.

  /** The successor request that a scan of attempt `k` builds. */
  predicate BuiltFrom(db: Db, k: Id, draw: Draw, next: EvaluationRequest)
    requires k in db.attempts
  {
    WithNextAttempt(db.attempts[k].payload, draw.attemptId, draw.key) == Ok(next)
  }

  /** Attempt `k` is the current attempt of the request's evaluation, and its lease has run out at `now`. */
  ghost predicate StillExpired(db: Db, k: Id, e: Id, now: nat) {
    && Joined(db, e) && db.evaluations[e].currentAttemptId == k && db.evaluations[e].state == RowLeased
    && db.attempts[k].state == RowLeased && db.attempts[k].expiresAt.Some? && db.attempts[k].expiresAt.value < now
  }

  lemma BuiltNumber(db: Db, k: Id, draw: Draw, next: EvaluationRequest)
    requires Inv(db) && k in db.attempts && BuiltFrom(db, k, draw, next)
    ensures next.evaluationId == db.attempts[k].evaluationId
    ensures next.attemptNumber == db.attempts[k].attemptNumber + 1
  {
    hide Inv;
    AttemptFacts(db, k);
    hide TaskCheck, RegistryAgrees, SameEvaluationSemantics, LeaseFields, AttemptCheck;
  }

  lemma SameNumberIsCurrent(db: Db, k: Id, e: Id)
    requires Inv(db) && k in db.attempts && db.attempts[k].evaluationId == e && Joined(db, e)
    requires CurrentNumber(db, e) == db.attempts[k].attemptNumber
    ensures db.evaluations[e].currentAttemptId == k
  {
    hide Inv, EvaluationInv;
    AttemptFacts(db, k);
    hide TaskCheck, RegistryAgrees, SameEvaluationSemantics, LeaseFields, AttemptCheck;
  }

  /** However much happens in between, a retry built from a scan of attempt `k` replaces `k` or nothing, and it replaces
      `k` only while `k` is still current and still expired. */
  lemma ScanThenRetry(db: Db, k: Id, draw: Draw, next: EvaluationRequest, run: seq<Command>, now: UnixMillis,
                      encodes: bool)
    requires Inv(db) && k in db.attempts && BuiltFrom(db, k, draw, next)
    ensures var later := Exec(db, run);
            var tx := RetryTx(later, next, now, encodes);
            tx.db != later ==>
              && StillExpired(later, k, next.evaluationId, now)
              && k in later.tasks && tx.db == Replaced(later, next, now)
              && k in tx.db.attempts && tx.db.attempts[k].state == RowExpired
  {
    hide Inv, Apply, RetryTx, EvaluationInv, AttemptInv, Evolves, SameEvaluationSemantics;
    RunKeepsInv(db, run);
    RunEvolves(db, run);
    var later := Exec(db, run);
    RetryEffect(later, next, now, encodes);
    BuiltNumber(db, k, draw, next);
    AttemptKept(db, later, k);
    if RetryTx(later, next, now, encodes).db != later {
      SameNumberIsCurrent(later, k, next.evaluationId);
    }
  }

  lemma AttemptKept(db: Db, later: Db, k: Id)
    requires Evolves(db, later) && k in db.attempts
    ensures k in later.attempts && later.attempts[k].evaluationId == db.attempts[k].evaluationId
    ensures later.attempts[k].attemptNumber == db.attempts[k].attemptNumber
  {
    assert AttemptRowEvolves(db, later, k);
  }

  // ---- The system of sweepers.

  datatype Scanned = Scanned(next: EvaluationRequest, now: UnixMillis)

  datatype Sweeper = Sweeper(holding: Option<Scanned>, recovered: nat)

  datatype World = World(db: Db, sweepers: seq<Sweeper>)

  datatype Act = Environment(command: Command) | Scan(sweeper: nat, now: UnixMillis, draw: Draw) | Fire(sweeper: nat)

  ghost function Perform(w: World, act: Act): World {
    match act
    case Environment(c) => w.(db := Apply(w.db, c).db)
    case Scan(i, now, draw) =>
      if i >= |w.sweepers| || w.sweepers[i].holding.Some? then w
      else if k :| FirstExpired(w.db, now, k) then
        match WithNextAttempt(w.db.attempts[k].payload, draw.attemptId, draw.key)
        case Err(_) => w
        case Ok(next) => w.(sweepers := w.sweepers[i := w.sweepers[i].(holding := Some(Scanned(next, now)))])
      else w
    case Fire(i) =>
      if i >= |w.sweepers| || w.sweepers[i].holding.None? then w
      else
        var held := w.sweepers[i].holding.value;
        var tx := RetryTx(w.db, held.next, held.now, true);
        var recovered := w.sweepers[i].recovered;
        World(tx.db, w.sweepers[i := Sweeper(None, if Answer(tx).Ok? then SaturatingIncrement(recovered)
                                                   else recovered)])
  }

  ghost function Play(w: World, acts: seq<Act>): World
    decreases |acts|
  {
    if acts == [] then w else Play(Perform(w, acts[0]), acts[1..])
  }

  /** The retry that an act sends to the store, if any. */
  function RetryOf(w: World, act: Act): Option<Scanned> {
    match act
    case Environment(Retry(r, now, encodes)) => if encodes then Some(Scanned(r, now)) else None
    case Fire(i) => if i < |w.sweepers| then w.sweepers[i].holding else None
    case _ => None
  }

  datatype Succession = Succession(maker: Option<nat>, attempt: Id, successor: Id)

  /** The replacement that an act makes, if any. */
  ghost function Made(w: World, act: Act): seq<Succession> {
    match RetryOf(w, act)
    case None => []
    case Some(retry) =>
      if Replaceable(w.db, retry.next, retry.now) then
        [Succession(if act.Fire? then Some(act.sweeper) else None,
                    w.db.evaluations[retry.next.evaluationId].currentAttemptId, retry.next.attemptId)]
      else []
  }

  ghost function Log(w: World, acts: seq<Act>): seq<Succession>
    decreases |acts|
  {
    if acts == [] then [] else Made(w, acts[0]) + Log(Perform(w, acts[0]), acts[1..])
  }

  // ---- Freshness of generated keys.

  ghost predicate Held(w: World, i: nat, key: Id) {
    i < |w.sweepers| && w.sweepers[i].holding.Some? && w.sweepers[i].holding.value.next.idempotencyKey == key
  }

  /** Held keys are unused and belong to one sweeper each. */
  ghost predicate KeysFresh(w: World) {
    && (forall i, key :: Held(w, i, key) ==> KeyIsUnused(w.db, key))
    && (forall i, j, key :: Held(w, i, key) && Held(w, j, key) ==> i == j)
  }

  /** The hypothesis about the random source: a drawn key is new to the store and to the sweepers, and nobody else
      sends a key that a sweeper holds. */
  ghost predicate ActFresh(w: World, act: Act) {
    match act
    case Environment(Create(r, _, _)) => forall i :: !Held(w, i, r.idempotencyKey)
    case Environment(Retry(r, _, _)) => forall i :: !Held(w, i, r.idempotencyKey)
    case Environment(_) => true
    case Scan(_, _, draw) => KeyIsUnused(w.db, draw.key) && forall i :: !Held(w, i, draw.key)
    case Fire(_) => true
  }

  ghost predicate PlayFresh(w: World, acts: seq<Act>)
    decreases |acts|
  {
    acts == [] || (ActFresh(w, acts[0]) && PlayFresh(Perform(w, acts[0]), acts[1..]))
  }

  // ---- One act.

  ghost function AllExpired(db: Db): set<Id> {
    set a | a in db.attempts && db.attempts[a].state == RowExpired
  }

  /** Attempt `a` has expired, and its successor is the next attempt of the same evaluation. */
  ghost predicate Succeeds(db: Db, a: Id, successor: Id) {
    && a in db.attempts && successor in db.attempts && db.attempts[a].state == RowExpired
    && db.attempts[successor].evaluationId == db.attempts[a].evaluationId
    && db.attempts[successor].attemptNumber == db.attempts[a].attemptNumber + 1
  }

  /** The store moves by one command, the retry of the act if it sends one. */
  lemma PerformIsStep(w: World, act: Act) returns (c: Option<Command>)
    ensures c.None? ==> Perform(w, act).db == w.db && RetryOf(w, act).None?
    ensures c.Some? ==> Perform(w, act).db == Apply(w.db, c.value).db
    ensures RetryOf(w, act).Some? ==> c == Some(Retry(RetryOf(w, act).value.next, RetryOf(w, act).value.now, true))
    ensures RetryOf(w, act).None? && c.Some? ==> act == Environment(c.value) && (c.value.Retry? ==> !c.value.encodes)
  {
    hide RetryTx, Apply, Answer, WithNextAttempt;
    match act
    case Environment(e) => c := Some(e);
    case Scan(_, _, _) => c := None;
    case Fire(i) =>
      if i < |w.sweepers| && w.sweepers[i].holding.Some? {
        var held := w.sweepers[i].holding.value;
        c := Some(Retry(held.next, held.now, true));
        RetryApplies(w.db, held.next, held.now, true);
      } else {
        c := None;
      }
  }

  lemma PerformKeepsInv(w: World, act: Act)
    requires Inv(w.db)
    ensures Inv(Perform(w, act).db) && Evolves(w.db, Perform(w, act).db)
    ensures |Perform(w, act).sweepers| == |w.sweepers|
  {
    hide Inv, Apply, Evolves, RetryTx, Answer, WithNextAttempt;
    var c := PerformIsStep(w, act);
    EvolvesReflexive(w.db);
    if c.Some? {
      StepKeepsInv(w.db, c.value);
      StepEvolves(w.db, c.value);
    }
  }

  lemma OtherStepsExpireNothing(db: Db, c: Command)
    requires Inv(db) && !(c.Retry? && c.encodes && Replaceable(db, c.request, c.now))
    ensures AllExpired(Apply(db, c).db) == AllExpired(db)
  {
    hide Inv, Apply, Insertable, RetryTx, SameEvaluationSemantics;
    if c.Retry? {
      RetryEffect(db, c.request, c.now, c.encodes);
      RetryApplies(db, c.request, c.now, c.encodes);
    } else {
      var shape := StepShape(db, c);
      if shape.Insertion? { NewRowsAreQueued(db, shape.request, shape.at); }
    }
  }

  lemma NewRowsAreQueued(db: Db, r: EvaluationRequest, createdAt: UnixMillis)
    requires Insertable(db, r)
    ensures AllExpired(Inserted(db, r, createdAt)) == AllExpired(db)
  {
    hide RegistryAgrees, DatabaseAccepts;
  }

  lemma ReplacementExpiresOne(db: Db, r: EvaluationRequest, now: UnixMillis)
    requires Replaceable(db, r, now) && db.evaluations[r.evaluationId].currentAttemptId in db.tasks
    requires db.attempts[db.evaluations[r.evaluationId].currentAttemptId].evaluationId == r.evaluationId
    ensures var a := db.evaluations[r.evaluationId].currentAttemptId;
            var db' := Replaced(db, r, now);
            && a !in AllExpired(db) && AllExpired(db') == AllExpired(db) + {a} && Succeeds(db', a, r.attemptId)
  {
    hide SameEvaluationSemantics;
  }

  /** An act that makes a replacement expires exactly the attempt it names and gives it its successor; any other act
      expires nothing. */
  lemma ActExpires(w: World, act: Act)
    requires Inv(w.db)
    ensures var made := Made(w, act);
            var db' := Perform(w, act).db;
            if made == [] then AllExpired(db') == AllExpired(w.db)
            else
              && |made| == 1 && made[0].attempt !in AllExpired(w.db)
              && AllExpired(db') == AllExpired(w.db) + {made[0].attempt}
              && Succeeds(db', made[0].attempt, made[0].successor)
  {
    hide Inv, Apply, Perform, RetryTx, Replaceable, EvaluationInv, AttemptInv, AllExpired, Succeeds;
    var c := PerformIsStep(w, act);
    if Made(w, act) != [] {
      var retry := RetryOf(w, act).value;
      RetryEffect(w.db, retry.next, retry.now, true);
      RetryApplies(w.db, retry.next, retry.now, true);
      StoredEvaluation(w.db, retry.next, retry.now);
      CurrentFacts(w.db, retry.next.evaluationId);
      ReplacementExpiresOne(w.db, retry.next, retry.now);
    } else if c.Some? {
      OtherStepsExpireNothing(w.db, c.value);
    }
  }

  lemma StoredEvaluation(db: Db, r: EvaluationRequest, now: nat)
    requires Replaceable(db, r, now)
    ensures Joined(db, r.evaluationId)
  {
  }

  // ---- Counting.

  /** A sweeper's counter moves exactly when its retry makes a replacement, because its key is nobody else's. */
  lemma FireCounts(w: World, i: nat)
    requires Inv(w.db) && KeysFresh(w) && i < |w.sweepers|
    ensures Perform(w, Fire(i)).sweepers[i].recovered ==
            if Made(w, Fire(i)) != [] then SaturatingIncrement(w.sweepers[i].recovered) else w.sweepers[i].recovered
  {
    hide Inv, RetryTx, Answer, Replaceable;
    if w.sweepers[i].holding.Some? {
      var held := w.sweepers[i].holding.value;
      assert Held(w, i, held.next.idempotencyKey);
      RetryEffect(w.db, held.next, held.now, true);
      if Replaceable(w.db, held.next, held.now) { TurnAnswers(w.db, held.now, held.next); }
      assert KeyIsUnused(w.db, held.next.idempotencyKey) && !RetriedWith(w.db, held.next);
      ErrorAnswersError(w.db, held.next, held.now);
    }
  }

  lemma ErrorAnswersError(db: Db, r: EvaluationRequest, now: UnixMillis)
    ensures RetryTx(db, r, now, true).out.Err? ==> Answer(RetryTx(db, r, now, true)).Err?
  {
    hide RetryTx, Status;
  }

  ghost function MadeBy(log: seq<Succession>, i: nat): nat {
    if log == [] then 0 else (if log[0].maker == Some(i) then 1 else 0) + MadeBy(log[1..], i)
  }

  lemma ActCounts(w: World, act: Act, i: nat)
    requires Inv(w.db) && KeysFresh(w) && i < |w.sweepers|
    ensures |Perform(w, act).sweepers| == |w.sweepers|
    ensures Perform(w, act).sweepers[i].recovered ==
            if Made(w, act) != [] && Made(w, act)[0].maker == Some(i) then SaturatingIncrement(w.sweepers[i].recovered)
            else w.sweepers[i].recovered
  {
    hide Inv, RetryTx, Answer, Replaceable, KeysFresh, WithNextAttempt, Apply;
    if act.Fire? && act.sweeper == i { FireCounts(w, i); }
  }

  // ---- Keys stay fresh.

  /** The only key that a step adds to the attempts is that of the request it carries. */
  lemma StepAddsOwnKey(db: Db, c: Command, key: Id)
    requires Inv(db) && KeyIsUnused(db, key)
    requires c.Create? ==> c.request.idempotencyKey != key
    requires c.Retry? ==> c.request.idempotencyKey != key
    ensures KeyIsUnused(Apply(db, c).db, key)
  {
    hide Inv, Apply, Insertable, SameEvaluationSemantics;
    var shape := StepShape(db, c);
    StepEvolves(db, c);
    var db' := Apply(db, c).db;
    forall a ensures !AttemptKeyAt(db', key, a) {
      assert !AttemptKeyAt(db, key, a);
      if a in db.attempts { assert AttemptRowEvolves(db, db', a); }
    }
  }

  lemma PerformKeepsFresh(w: World, act: Act)
    requires Inv(w.db) && KeysFresh(w) && ActFresh(w, act)
    ensures KeysFresh(Perform(w, act))
  {
    hide Inv, Apply, RetryTx, Answer, KeyIsUnused;
    var w' := Perform(w, act);
    var c := PerformIsStep(w, act);
    forall i, key | Held(w', i, key) ensures KeyIsUnused(w'.db, key) {
      if Held(w, i, key) {
        if c.Some? {
          if act.Fire? { assert Held(w, act.sweeper, RetryOf(w, act).value.next.idempotencyKey); }
          StepAddsOwnKey(w.db, c.value, key);
        }
      }
    }
    forall i, j, key | Held(w', i, key) && Held(w', j, key) ensures i == j {
      assert Held(w, i, key) || (act.Scan? && act.sweeper == i && key == act.draw.key);
      assert Held(w, j, key) || (act.Scan? && act.sweeper == j && key == act.draw.key);
    }
  }

  // ---- Whole plays.

  function Replacees(log: seq<Succession>): set<Id> {
    set k | 0 <= k < |log| :: log[k].attempt
  }

  lemma SucceedsStays(db: Db, later: Db, a: Id, successor: Id)
    requires Inv(db) && Evolves(db, later) && Succeeds(db, a, successor)
    ensures Succeeds(later, a, successor)
  {
    hide Inv;
    assert AttemptRowEvolves(db, later, a) && AttemptRowEvolves(db, later, successor);
  }

  lemma {:induction false} PlayKeepsInv(w: World, acts: seq<Act>)
    requires Inv(w.db)
    ensures Inv(Play(w, acts).db) && Evolves(w.db, Play(w, acts).db)
    decreases |acts|
  {
    hide Inv, Evolves, Perform;
    if acts == [] {
      EvolvesReflexive(w.db);
    } else {
      var next := Perform(w, acts[0]);
      PerformKeepsInv(w, acts[0]);
      PlayKeepsInv(next, acts[1..]);
      EvolvesTransitive(w.db, next.db, Play(w, acts).db);
    }
  }

  /** The replacements of `log` are what turned `db` into `db'` as far as expiry goes: each names another attempt, which
      had not expired before and has its successor now, and no other attempt has expired in between. */
  ghost predicate LogExplains(db: Db, db': Db, log: seq<Succession>) {
    && AllExpired(db') == AllExpired(db) + Replacees(log)
    && |AllExpired(db')| == |AllExpired(db)| + |log|
    && (forall k :: 0 <= k < |log| ==> log[k].attempt !in AllExpired(db))
    && (forall k :: 0 <= k < |log| ==> Succeeds(db', log[k].attempt, log[k].successor))
    && (forall j, k :: 0 <= j < k < |log| ==> log[j].attempt != log[k].attempt)
  }

  lemma LogsCompose(db: Db, mid: Db, db': Db, made: seq<Succession>, rest: seq<Succession>)
    requires LogExplains(db, mid, made) && LogExplains(mid, db', rest)
    requires forall k :: 0 <= k < |made| ==> Succeeds(db', made[k].attempt, made[k].successor)
    ensures LogExplains(db, db', made + rest)
  {
    hide AllExpired, Succeeds, Replacees;
    ReplaceesOfSum(made, rest);
    LoggedIsReplacee(made);
    var log := made + rest;
    assert forall k :: 0 <= k < |log| ==> log[k] == if k < |made| then made[k] else rest[k - |made|];
    assert forall k :: 0 <= k < |rest| ==> rest[k].attempt !in AllExpired(mid);
    assert forall k :: 0 <= k < |made| ==> made[k].attempt in AllExpired(mid);
    forall j, k | 0 <= j < k < |log| ensures log[j].attempt != log[k].attempt {
      if j >= |made| { assert rest[j - |made|].attempt != rest[k - |made|].attempt; }
    }
  }

  lemma LoggedIsReplacee(log: seq<Succession>)
    ensures forall k :: 0 <= k < |log| ==> log[k].attempt in Replacees(log)
  {
  }

  /** However sweepers and other traffic interleave, and whatever ids they use: every lease that expired during the
      play was replaced by exactly one of the logged replacements, each gave it its one successor, and no attempt is
      replaced twice. */
  lemma {:induction false} EachLeaseHasOneSuccessor(w: World, acts: seq<Act>)
    requires Inv(w.db)
    ensures LogExplains(w.db, Play(w, acts).db, Log(w, acts))
    decreases |acts|
  {
    hide Inv, Evolves, Perform, Made, AllExpired, Succeeds, LogExplains, Replacees;
    if acts == [] {
      NothingLogged(w.db);
    } else {
      var next := Perform(w, acts[0]);
      var made := Made(w, acts[0]);
      PerformKeepsInv(w, acts[0]);
      PlayKeepsInv(next, acts[1..]);
      ActIsLogged(w, acts[0]);
      EachLeaseHasOneSuccessor(next, acts[1..]);
      forall k | 0 <= k < |made| ensures Succeeds(Play(w, acts).db, made[k].attempt, made[k].successor) {
        LoggedSucceeds(w.db, next.db, made, k);
        SucceedsStays(next.db, Play(w, acts).db, made[k].attempt, made[k].successor);
      }
      LogsCompose(w.db, next.db, Play(w, acts).db, made, Log(next, acts[1..]));
    }
  }

  lemma NothingLogged(db: Db)
    ensures LogExplains(db, db, [])
  {
  }

  lemma LoggedSucceeds(db: Db, db': Db, log: seq<Succession>, k: nat)
    requires LogExplains(db, db', log) && k < |log|
    ensures Succeeds(db', log[k].attempt, log[k].successor)
  {
    hide Succeeds;
  }

  lemma ActIsLogged(w: World, act: Act)
    requires Inv(w.db)
    ensures LogExplains(w.db, Perform(w, act).db, Made(w, act))
  {
    hide Inv, Perform, Made, AllExpired, Succeeds;
    ActExpires(w, act);
    ReplaceesOfSum(Made(w, act), []);
  }

  lemma ReplaceesOfSum(x: seq<Succession>, y: seq<Succession>)
    ensures Replacees(x + y) == Replacees(x) + Replacees(y)
    ensures |x| == 1 ==> Replacees(x) == {x[0].attempt}
    ensures x == [] ==> Replacees(x) == {}
  {
    forall a | a in Replacees(x) + Replacees(y) ensures a in Replacees(x + y) {
      if a in Replacees(x) {
        var k :| 0 <= k < |x| && x[k].attempt == a;
        assert (x + y)[k].attempt == a;
      } else {
        var k :| 0 <= k < |y| && y[k].attempt == a;
        assert (x + y)[|x| + k].attempt == a;
      }
    }
  }

  function Saturated(n: nat): nat { if n < U32_MAX then n else U32_MAX }

  lemma {:induction false} MadeByOfSum(x: seq<Succession>, y: seq<Succession>, i: nat)
    ensures MadeBy(x + y, i) == MadeBy(x, i) + MadeBy(y, i)
  {
    if x == [] {
      assert x + y == y;
    } else {
      assert (x + y)[1..] == x[1..] + y;
      MadeByOfSum(x[1..], y, i);
    }
  }

  /** Every sweeper's counter is the (saturated) number of replacements it made itself. */
  lemma {:induction false} CountsAreReplacements(w: World, acts: seq<Act>, i: nat)
    requires Inv(w.db) && KeysFresh(w) && PlayFresh(w, acts)
    requires i < |w.sweepers| && w.sweepers[i].recovered <= U32_MAX
    ensures |Play(w, acts).sweepers| == |w.sweepers|
    ensures Play(w, acts).sweepers[i].recovered == Saturated(w.sweepers[i].recovered + MadeBy(Log(w, acts), i))
    decreases |acts|
  {
    hide Inv, Perform, Made, KeysFresh, ActFresh;
    if acts != [] {
      var next := Perform(w, acts[0]);
      PerformKeepsInv(w, acts[0]);
      PerformKeepsFresh(w, acts[0]);
      ActCounts(w, acts[0], i);
      CountsAreReplacements(next, acts[1..], i);
      MadeByOfSum(Made(w, acts[0]), Log(next, acts[1..]), i);
      MadeIsShort(w, acts[0]);
    }
  }

  lemma MadeIsShort(w: World, act: Act)
    ensures |Made(w, act)| <= 1
    ensures forall i: nat :: MadeBy(Made(w, act), i) ==
              if Made(w, act) != [] && Made(w, act)[0].maker == Some(i) then 1 else 0
    ensures Made(w, act) != [] && Made(w, act)[0].maker.Some? ==> Made(w, act)[0].maker.value < |w.sweepers|
  {
    hide Replaceable;
    var made := Made(w, act);
    if made != [] { assert made[1..] == []; }
  }

  function SumRecovered(sweepers: seq<Sweeper>): nat {
    if sweepers == [] then 0 else SumRecovered(sweepers[..|sweepers| - 1]) + sweepers[|sweepers| - 1].recovered
  }

  /** Replacements made by sweepers, not by the environment. */
  ghost function SweeperMade(log: seq<Succession>): nat {
    if log == [] then 0 else (if log[0].maker.Some? then 1 else 0) + SweeperMade(log[1..])
  }

  ghost function SumMade(log: seq<Succession>, n: nat): nat {
    if n == 0 then 0 else SumMade(log, n - 1) + MadeBy(log, n - 1)
  }

  lemma {:induction false} SumMadeUnfolds(log: seq<Succession>, n: nat)
    requires log != []
    ensures SumMade(log, n) ==
            SumMade(log[1..], n) + if log[0].maker.Some? && log[0].maker.value < n then 1 else 0
  {
    if n > 0 { SumMadeUnfolds(log, n - 1); }
  }

  lemma {:induction false} SumMadeIsTotal(log: seq<Succession>, n: nat)
    requires MakersBelow(log, n)
    ensures SumMade(log, n) == SweeperMade(log)
  {
    if log == [] {
      SumOfNone(n);
    } else {
      SumMadeUnfolds(log, n);
      SumMadeIsTotal(log[1..], n);
    }
  }

  lemma {:induction false} SumOfNone(n: nat)
    ensures SumMade([], n) == 0
  {
    if n > 0 { SumOfNone(n - 1); }
  }

  predicate MakersBelow(log: seq<Succession>, n: nat) {
    forall s :: s in log && s.maker.Some? ==> s.maker.value < n
  }

  lemma {:induction false} MakersAreSweepers(w: World, acts: seq<Act>)
    requires Inv(w.db)
    ensures MakersBelow(Log(w, acts), |w.sweepers|)
    decreases |acts|
  {
    hide Inv, Perform, Made, Evolves;
    if acts != [] {
      PerformKeepsInv(w, acts[0]);
      MadeIsShort(w, acts[0]);
      MakersAreSweepers(Perform(w, acts[0]), acts[1..]);
    }
  }

  lemma {:induction false} SumOfCounts(sweepers: seq<Sweeper>, log: seq<Succession>)
    requires forall i :: 0 <= i < |sweepers| ==> sweepers[i].recovered == MadeBy(log, i)
    ensures SumRecovered(sweepers) == SumMade(log, |sweepers|)
  {
    if sweepers != [] { SumOfCounts(sweepers[..|sweepers| - 1], log); }
  }

  /** For any number of concurrent sweepers that start at zero, the sum of what they report is the number of
      replacements that sweepers made. */
  lemma SumOfCountsIsReplacements(w: World, acts: seq<Act>)
    requires Inv(w.db) && KeysFresh(w) && PlayFresh(w, acts)
    requires forall i :: 0 <= i < |w.sweepers| ==> w.sweepers[i].recovered == 0
    requires forall i :: 0 <= i < |w.sweepers| ==> MadeBy(Log(w, acts), i) <= U32_MAX
    ensures SumRecovered(Play(w, acts).sweepers) == SweeperMade(Log(w, acts))
  {
    hide Inv, KeysFresh, PlayFresh, Play, Log, MadeBy, SumMade;
    var log := Log(w, acts);
    forall i | 0 <= i < |w.sweepers|
      ensures |Play(w, acts).sweepers| == |w.sweepers| && Play(w, acts).sweepers[i].recovered == MadeBy(log, i)
    {
      CountsAreReplacements(w, acts, i);
    }
    SweepersStay(w, acts);
    SumOfCounts(Play(w, acts).sweepers, log);
    MakersAreSweepers(w, acts);
    SumMadeIsTotal(log, |w.sweepers|);
  }

  lemma {:induction false} SweepersStay(w: World, acts: seq<Act>)
    requires Inv(w.db)
    ensures |Play(w, acts).sweepers| == |w.sweepers|
    decreases |acts|
  {
    hide Inv, Perform, Evolves;
    if acts != [] {
      PerformKeepsInv(w, acts[0]);
      SweepersStay(Perform(w, acts[0]), acts[1..]);
    }
  }
}
