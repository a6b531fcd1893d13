/**
 * Jobs are conserved: in every interleaving the running rows are exactly the jobs of the calls between their
 * insert and their completion, together with those whose call gave up on a repository error.
 */
module JobConservation {
  import opened Tables
  import opened Pem
  import opened AcmeMachine

  /** The call has inserted its job and not yet completed it. */
  predicate Holds(pc: Pc) {
    pc.Working? || pc.Obtained? || pc.ChainWritten? || pc.KeyWritten? || pc.Failing? || pc.Recording?
    || pc.Completing? || pc.Fetched?
  }

  /** Some call is between the insert and the completion of job j. */
  predicate Held(s: State, j: nat) {
    && j in s.history.holder && s.history.holder[j] in s.calls
    && var c := s.calls[s.history.holder[j]];
    Holds(c.pc) && c.job == j
  }

  predicate IsRunning(s: State, j: nat) {
    j in s.jobs.rows && s.jobs.rows[j].status.Running?
  }

  /** Every job is in exactly one of three places: held, abandoned or completed. */
  ghost predicate Ledger(s: State) {
    && (forall j :: IsRunning(s, j) <==> Held(s, j) || j in s.history.leaked)
    && (forall j :: j in s.history.leaked ==> !Held(s, j))
    && (forall j :: s.history.completed[j] <= 1)
    && (forall j :: j in s.history.completed ==> !Held(s, j) && j !in s.history.leaked)
    && (forall j :: j in s.history.holder ==> Held(s, j) || j in s.history.leaked || j in s.history.completed)
    && (forall j :: j in s.history.completed || j in s.history.leaked ==> j in s.history.holder)
  }

  ghost predicate CallsHold(s: State) {
    && (forall k :: k in s.calls && Holds(s.calls[k].pc) ==>
      s.calls[k].job in s.history.holder && s.history.holder[s.calls[k].job] == k)
    && (forall k :: k in s.calls && s.calls[k].pc.KeyWritten? ==> Expiry(s.calls[k].issued.chain.blocks).Some?)
  }

  ghost predicate Conserved(s: State) {
    && s.jobs.nextId >= 1
    && (forall j :: j in s.history.holder <==> 1 <= j < s.jobs.nextId)
    && (forall j :: j in s.jobs.rows ==> j in s.history.holder)
    && Ledger(s) && CallsHold(s)
  }

  // ---------- the kinds of step ----------

  /** One call moves without touching jobs, and holds its job after the move exactly if it did before. */
  lemma CallMoves(s: State, s': State, k: nat, c: Call)
    requires Conserved(s)
    requires s'.jobs == s.jobs && s'.calls == s.calls[k := c]
    requires s'.history == s.history.(issued := s'.history.issued)
    requires if k in s.calls then Holds(c.pc) == Holds(s.calls[k].pc) && c.job == s.calls[k].job else !Holds(c.pc)
    requires c.pc.KeyWritten? ==> Expiry(c.issued.chain.blocks).Some?
    ensures Conserved(s')
  {
    assert forall j :: Held(s', j) == Held(s, j);
    assert forall j :: IsRunning(s', j) == IsRunning(s, j);
  }

  lemma InsertKeeps(s: State, k: nat)
    requires Conserved(s) && k in s.calls && !Holds(s.calls[k].pc)
    ensures Conserved(Inserted(s, k))
  {
    hide Conserved, Inserted, Holds;
    InsertedParts(s, k);
    InsertFrom(s, Inserted(s, k), k, s.jobs.nextId);
  }

  lemma InsertFrom(s: State, s': State, k: nat, j: nat)
    requires Conserved(s) && k in s.calls && !Holds(s.calls[k].pc) && j == s.jobs.nextId
    requires s'.calls == s.calls[k := s.calls[k].(pc := Working, job := j)]
    requires s'.history.holder == s.history.holder[j := k]
    requires s'.history.completed == s.history.completed && s'.history.leaked == s.history.leaked
    requires s'.jobs.nextId == j + 1 && j in s'.jobs.rows && s'.jobs.rows == s.jobs.rows[j := s'.jobs.rows[j]]
    requires s'.jobs.rows[j].status.Running?
    ensures Conserved(s')
  {
    hide Ledger, CallsHold, Held, IsRunning, Holds;
    InsertHolds(s, s', k, j);
    InsertRuns(s, s', j);
    InsertBooks(s, s', k, j);
    InsertCalls(s, s', k, j);
  }

  /** The ledger of the jobs, old and new. */
  lemma InsertBooks(s: State, s': State, k: nat, j: nat)
    requires Conserved(s) && j !in s.history.holder
    requires s'.history.holder == s.history.holder[j := k]
    requires s'.history.completed == s.history.completed && s'.history.leaked == s.history.leaked
    requires Held(s', j) && IsRunning(s', j)
    requires forall i :: i != j ==> Held(s', i) == Held(s, i) && IsRunning(s', i) == IsRunning(s, i)
    ensures Ledger(s')
  {
    hide Held, IsRunning, Holds;
    assert j !in s.history.completed && j !in s.history.leaked;
  }

  lemma InsertCalls(s: State, s': State, k: nat, j: nat)
    requires Conserved(s) && j !in s.history.holder && k in s.calls
    requires s'.calls == s.calls[k := s.calls[k].(pc := Working, job := j)]
    requires s'.history.holder == s.history.holder[j := k]
    ensures CallsHold(s')
  {
    hide Held, IsRunning, Expiry;
    forall i | i in s'.calls && Holds(s'.calls[i].pc)
      ensures s'.calls[i].job in s'.history.holder && s'.history.holder[s'.calls[i].job] == i
    {
      if i != k {
        assert s'.calls[i] == s.calls[i];
      }
    }
  }

  lemma InsertHolds(s: State, s': State, k: nat, j: nat)
    requires k in s.calls && !Holds(s.calls[k].pc) && j !in s.history.holder
    requires s'.calls == s.calls[k := s.calls[k].(pc := Working, job := j)]
    requires s'.history.holder == s.history.holder[j := k]
    ensures Held(s', j) && !Held(s, j)
    ensures forall i :: i != j ==> Held(s', i) == Held(s, i)
  {
  }

  lemma InsertRuns(s: State, s': State, j: nat)
    requires j in s'.jobs.rows && s'.jobs.rows == s.jobs.rows[j := s'.jobs.rows[j]] && s'.jobs.rows[j].status.Running?
    ensures IsRunning(s', j)
    ensures forall i :: i != j ==> IsRunning(s', i) == IsRunning(s, i)
  {
  }

  lemma InsertedParts(s: State, k: nat)
    requires k in s.calls
    ensures var s', j := Inserted(s, k), s.jobs.nextId;
      && s'.calls == s.calls[k := s.calls[k].(pc := Working, job := j)]
      && s'.history.holder == s.history.holder[j := k]
      && s'.history.completed == s.history.completed && s'.history.leaked == s.history.leaked
      && s'.jobs.nextId == j + 1 && j in s'.jobs.rows && s'.jobs.rows == s.jobs.rows[j := s'.jobs.rows[j]]
      && s'.jobs.rows[j].status.Running?
  {
  }

  lemma AbandonKeeps(s: State, k: nat)
    requires Conserved(s) && k in s.calls && Holds(s.calls[k].pc)
    ensures Conserved(Abandoned(s, k))
  {
    var s', j := Abandoned(s, k), s.calls[k].job;
    assert Held(s, j) && !Held(s', j);
    assert forall i :: i != j ==> Held(s', i) == Held(s, i);
    assert forall i :: IsRunning(s', i) == IsRunning(s, i);
  }

  lemma FinishKeeps(s: State, k: nat)
    requires Conserved(s) && k in s.calls && Holds(s.calls[k].pc) && s.calls[k].job in s.jobs.rows
    requires !s.calls[k].status.Running?
    ensures Conserved(Finished(s, k))
  {
    hide Conserved, Holds;
    FinishFrom(s, Finished(s, k), k, s.calls[k].job);
  }

  lemma FinishFrom(s: State, s': State, k: nat, j: nat)
    requires Conserved(s) && k in s.calls && Holds(s.calls[k].pc) && j == s.calls[k].job && j in s.jobs.rows
    requires s'.calls == s.calls[k := s.calls[k].(pc := Returned)]
    requires s'.history.holder == s.history.holder && s'.history.leaked == s.history.leaked
    requires s'.history.completed == s.history.completed + multiset{j}
    requires s'.jobs.nextId == s.jobs.nextId
    requires j in s'.jobs.rows && s'.jobs.rows == s.jobs.rows[j := s'.jobs.rows[j]]
    requires !s'.jobs.rows[j].status.Running?
    ensures Conserved(s')
  {
    hide Expiry;
    assert Held(s, j) && !Held(s', j);
    assert forall i :: i != j ==> Held(s', i) == Held(s, i);
    assert !IsRunning(s', j) && forall i :: i != j ==> IsRunning(s', i) == IsRunning(s, i);
  }

  lemma ClearKeeps(s: State)
    requires Conserved(s)
    ensures Conserved(s.(jobs := DeleteCompleted(s.jobs)))
  {
    var s' := s.(jobs := DeleteCompleted(s.jobs));
    assert forall j :: Held(s', j) == Held(s, j);
    assert forall j :: IsRunning(s', j) == IsRunning(s, j);
  }

  lemma ForgetKeeps(s: State, s': State, id: nat)
    requires Conserved(s) && s'.jobs == ForgetCertificate(s.jobs, id) && s'.calls == s.calls && s'.history == s.history
    ensures Conserved(s')
  {
    assert forall j :: Held(s', j) == Held(s, j);
    assert forall j :: IsRunning(s', j) == IsRunning(s, j);
  }

  lemma SameJobs(s: State, s': State)
    requires Conserved(s) && s'.jobs == s.jobs && s'.calls == s.calls && s'.history == s.history
    ensures Conserved(s')
  {
    assert forall j :: Held(s', j) == Held(s, j);
    assert forall j :: IsRunning(s', j) == IsRunning(s, j);
  }

  /** Complete is only ever asked for success or failure. */
  predicate Decided(c: Call) {
    c.pc.Recording? || c.pc.Completing? || c.pc.Fetched? ==> !c.status.Running?
  }

  ghost predicate AllDecided(s: State) {
    forall k :: k in s.calls ==> Decided(s.calls[k])
  }

  /** The call moves without touching jobs. */
  predicate MovesOnly(s: State, s': State, k: nat)
    requires k in s.calls && k in s'.calls
  {
    && s'.jobs == s.jobs && s'.history == s.history.(issued := s'.history.issued)
    && Holds(s'.calls[k].pc) == Holds(s.calls[k].pc) && s'.calls[k].job == s.calls[k].job
  }

  /** What a statement can do to jobs. */
  lemma Effects(s: State, k: nat, input: Input)
    requires k in s.calls && !s.calls[k].pc.Returned?
    ensures var c, s' := s.calls[k], Advance(s, k, input);
      || (c.pc.Admitted? && s' == Inserted(s, k))
      || (Holds(c.pc) && s' == Abandoned(s, k))
      || (c.pc.Fetched? && c.job in s.jobs.rows && s' == Finished(s, k))
      || MovesOnly(s, s', k)
  {
    hide Inserted, Finished, Abandoned, Guarded, Marked, Wrote, MarkFails, HasRunning, Writable;
    if s.calls[k].pc.Begun? || s.calls[k].pc.Loaded? || s.calls[k].pc.Timed? || s.calls[k].pc.NotRunning? {
      GuardsHoldNothing(s, s.calls[k], input);
    }
    if s.calls[k].pc.KeyWritten? && !MarkFails(s, s.calls[k], input) {
      MarkTouchesNoJob(s, s.calls[k], input);
    }
  }

  lemma GuardsHoldNothing(s: State, c: Call, input: Input)
    requires c.pc.Begun? || c.pc.Loaded? || c.pc.Timed? || c.pc.NotRunning?
    ensures !Holds(Guarded(s, c, input).pc) && Guarded(s, c, input).job == c.job
    ensures Decided(Guarded(s, c, input)) && !Guarded(s, c, input).pc.KeyWritten?
  {
  }

  lemma MarkTouchesNoJob(s: State, c: Call, input: Input)
    requires !MarkFails(s, c, input)
    ensures Marked(s, c).jobs == s.jobs && Marked(s, c).calls == s.calls
    ensures Marked(s, c).history == s.history.(issued := Marked(s, c).history.issued)
  {
  }

  /** The local facts a statement leaves in its call. */
  lemma LocalFacts(s: State, k: nat, input: Input)
    requires k in s.calls && !s.calls[k].pc.Returned? && Decided(s.calls[k])
    ensures Decided(Advance(s, k, input).calls[k])
    ensures Advance(s, k, input).calls[k].pc.KeyWritten? ==>
      Expiry(Advance(s, k, input).calls[k].issued.chain.blocks).Some?
  {
    hide Guarded, Marked, Wrote, MarkFails, Writable, NewJob;
    if s.calls[k].pc.Begun? || s.calls[k].pc.Loaded? || s.calls[k].pc.Timed? || s.calls[k].pc.NotRunning? {
      GuardsHoldNothing(s, s.calls[k], input);
    }
    if s.calls[k].pc.KeyWritten? && !MarkFails(s, s.calls[k], input) {
      MarkTouchesNoJob(s, s.calls[k], input);
    }
  }

  lemma AdvanceKeeps(s: State, k: nat, input: Input)
    requires Conserved(s) && AllDecided(s) && k in s.calls && !s.calls[k].pc.Returned?
    ensures Conserved(Advance(s, k, input)) && AllDecided(Advance(s, k, input))
  {
    hide Conserved, Advance, Inserted, Abandoned, Finished, Holds;
    var c, s' := s.calls[k], Advance(s, k, input);
    LocalFacts(s, k, input);
    Effects(s, k, input);
    assert Decided(c);
    if c.pc.Admitted? && s' == Inserted(s, k) {
      assert !Holds(c.pc) by { PlacesOfHolding(c.pc); }
      InsertKeeps(s, k);
    } else if Holds(c.pc) && s' == Abandoned(s, k) {
      AbandonKeeps(s, k);
    } else if c.pc.Fetched? && c.job in s.jobs.rows && s' == Finished(s, k) {
      PlacesOfHolding(c.pc);
      FinishKeeps(s, k);
    } else {
      CallMoves(s, s', k, s'.calls[k]);
    }
  }

  lemma PlacesOfHolding(pc: Pc)
    ensures pc.Admitted? ==> !Holds(pc)
    ensures pc.Fetched? ==> Holds(pc)
  {
  }

  lemma StepKeeps(s: State, e: Event)
    requires Conserved(s) && AllDecided(s) && Enabled(s, e)
    ensures Conserved(Next(s, e)) && AllDecided(Next(s, e))
  {
    hide Conserved, Advance;
    var s' := Next(s, e);
    match e {
      case Step(k, input) =>
        AdvanceKeeps(s, k, input);
        SameJobs(Advance(s, k, input), s');
      case ClearCompleted =>
        ClearKeeps(s);
        SameJobs(s.(jobs := DeleteCompleted(s.jobs)), s');
      case Remove(id) => ForgetKeeps(s, s', id);
      case Begin(k, kind, cert, target) => CallMoves(s, s', k, s'.calls[k]);
      case _ => SameJobs(s, s');
    }
  }

  lemma {:induction false} RunConserves(states: seq<State>, events: seq<Event>, i: nat)
    requires IsRun(states, events) && i < |states|
    ensures Conserved(states[i]) && AllDecided(states[i])
  {
    hide Enabled, Next;
    if i > 0 {
      hide Conserved;
      RunConserves(states, events, i - 1);
      StepKeeps(states[i - 1], events[i - 1]);
    }
  }

  // ---------- what every run guarantees ----------

  /** The running rows are the jobs in progress and the abandoned ones, and these two are disjoint. */
  lemma RunningRowsAreJobsInProgress(states: seq<State>, events: seq<Event>, i: nat, j: nat)
    requires IsRun(states, events) && i < |states|
    ensures IsRunning(states[i], j) <==> Held(states[i], j) || j in states[i].history.leaked
    ensures !(Held(states[i], j) && j in states[i].history.leaked)
  {
    RunConserves(states, events, i);
  }

  /** A job is completed at most once, and once its call is done with it, it is completed or abandoned. */
  lemma CompletedAtMostOnce(states: seq<State>, events: seq<Event>, i: nat, j: nat)
    requires IsRun(states, events) && i < |states|
    ensures states[i].history.completed[j] <= 1
    ensures j in states[i].history.holder && !Held(states[i], j) && j !in states[i].history.leaked ==>
      states[i].history.completed[j] == 1
  {
    RunConserves(states, events, i);
  }

  /** Complete finds its row, still running, at both of its statements. */
  lemma CompleteFindsItsRow(states: seq<State>, events: seq<Event>, i: nat, k: nat)
    requires IsRun(states, events) && i < |states| && k in states[i].calls
    requires states[i].calls[k].pc.Completing? || states[i].calls[k].pc.Fetched?
    ensures IsRunning(states[i], states[i].calls[k].job)
  {
    RunConserves(states, events, i);
    assert Held(states[i], states[i].calls[k].job);
  }

  /** No repository call fails between the insert of a job and its completion. */
  predicate NoRepositoryError(s: State, e: Event) {
    e.Step? && e.call in s.calls ==>
      var c := s.calls[e.call];
      && (c.pc.Recording? || c.pc.Completing? || c.pc.Fetched? ==> !e.input.fault)
      && (c.pc.KeyWritten? ==> !e.input.fault && c.cert in s.certificates.rows)
  }

  lemma NothingAbandoned(s: State, e: Event)
    requires Conserved(s) && Enabled(s, e) && NoRepositoryError(s, e)
    ensures Next(s, e).history.leaked == s.history.leaked
  {
    if e.Step? {
      var c := s.calls[e.call];
      assert Holds(c.pc) ==> Held(s, c.job) && IsRunning(s, c.job);
      assert c.pc.KeyWritten? ==> Expiry(c.issued.chain.blocks).Some?;
      hide Conserved, Advance, Expiry;
      LeaksOnlyOnErrors(s, e.call, e.input);
    } else {
      hide Conserved;
    }
  }

  /** The only statements that abandon a job. */
  lemma LeaksOnlyOnErrors(s: State, k: nat, input: Input)
    requires k in s.calls && !s.calls[k].pc.Returned?
    ensures var c, leaked := s.calls[k], Advance(s, k, input).history.leaked;
      || leaked == s.history.leaked
      || (leaked == s.history.leaked + {c.job}
          && if c.pc.KeyWritten? then MarkFails(s, c, input)
             else if c.pc.Recording? then input.fault
             else (c.pc.Completing? || c.pc.Fetched?) && (input.fault || c.job !in s.jobs.rows))
  {
    hide Guarded, NewJob, Wrote, Writable, MarkFails, Marked, Answered, AfterKey, UpdateStatus, FinishJob, InsertJob;
    if s.calls[k].pc.KeyWritten? && !MarkFails(s, s.calls[k], input) {
      MarkTouchesNoJob(s, s.calls[k], input);
    }
  }

  lemma {:induction false} NoErrorsNoLeaks(states: seq<State>, events: seq<Event>, i: nat)
    requires IsRun(states, events) && i < |states|
    requires forall n :: 0 <= n < |events| ==> NoRepositoryError(states[n], events[n])
    ensures states[i].history.leaked == {}
  {
    hide Enabled, Next, NoRepositoryError, Conserved;
    if i > 0 {
      NoErrorsNoLeaks(states, events, i - 1);
      RunConserves(states, events, i - 1);
      NothingAbandoned(states[i - 1], events[i - 1]);
    }
  }

  /** Without repository errors the running rows are exactly the jobs between insert and completion. */
  lemma ConservationWithoutErrors(states: seq<State>, events: seq<Event>, i: nat, j: nat)
    requires IsRun(states, events) && i < |states|
    requires forall n :: 0 <= n < |events| ==> NoRepositoryError(states[n], events[n])
    ensures IsRunning(states[i], j) <==> Held(states[i], j)
    ensures j in states[i].history.holder ==> (states[i].history.completed[j] == 1 <==> !Held(states[i], j))
  {
    hide Enabled, Next, NoRepositoryError;
    RunConserves(states, events, i);
    NoErrorsNoLeaks(states, events, i);
  }

  // ---------- abandoned jobs ----------

  lemma LeakedGrows(s: State, e: Event)
    requires Enabled(s, e)
    ensures s.history.leaked <= Next(s, e).history.leaked
  {
    hide Advance, Expiry;
    if e.Step? {
      LeaksOnlyOnErrors(s, e.call, e.input);
    }
  }

  lemma {:induction false} LeakedStays(states: seq<State>, events: seq<Event>, j: nat, i: nat, n: nat)
    requires IsRun(states, events) && i <= n < |states| && j in states[i].history.leaked
    ensures j in states[n].history.leaked
  {
    hide Enabled, Next;
    if i < n {
      LeakedStays(states, events, j, i, n - 1);
      LeakedGrows(states[n - 1], events[n - 1]);
    }
  }

  /** A job whose call returned on an error before completing it runs for good: no run ever ends or deletes it. */
  lemma AbandonedRunsForGood(states: seq<State>, events: seq<Event>, j: nat, i: nat, n: nat)
    requires IsRun(states, events) && i <= n < |states| && j in states[i].history.leaked
    ensures IsRunning(states[n], j)
  {
    hide Conserved;
    LeakedStays(states, events, j, i, n);
    RunningRowsAreJobsInProgress(states, events, n, j);
  }
}
